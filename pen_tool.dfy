// The pen tool's bookkeeping (edit-tools-pen.js): where a click adds a
// point, and the `PointAdder` that records the edit, its rollback and the
// handle moves of a drag as lists of path changes.

module PenTool {
  import opened Base
  import opened PathData
  import opened VarPath
  import SceneController
  import EditBehavior

  type SelectionItem = SceneController.SelectionItem
  type Vec = EditBehavior.Vec

  //
  // getAppendIndices
  //

  /** What `getAppendIndices` returns: `[undefined, undefined, true]`, or `[contourIndex, contourPointIndex, isAppend]`. */
  datatype AppendIndices =
    | NewContour
    | Extend(contourIndex: nat, contourPointIndex: nat, isAppend: bool)

  /**
   * `getAppendIndices` for the one selected index: an open contour is
   * extended past its last point or before its first one when that point
   * is selected; anything else starts a new contour. The item's type is
   * not looked at. A negative index reaches `getContourAndPointIndex`,
   * which raises.
   */
  function AppendIndicesAt(p: PathValue, pointIndex: int): (r: Result<AppendIndices, PathError>)
    requires Wf(p)
    ensures r.Err? <==> pointIndex < 0
    ensures r.Err? ==> r.error == PointIndexOutOfBounds(pointIndex)
    ensures r.Ok? && r.value.Extend? ==> r.value.contourIndex < |p.contourInfo|
    ensures r.Ok? && r.value.Extend? ==>
              var c := r.value.contourIndex;
              var start := ContourStart(p.contourInfo, c);
              && !p.contourInfo[c].isClosed
              && start <= pointIndex <= p.contourInfo[c].endPoint
              && (pointIndex == start || pointIndex == p.contourInfo[c].endPoint)
              && (r.value.isAppend <==> pointIndex == p.contourInfo[c].endPoint)
              && r.value.contourPointIndex == (if r.value.isAppend then pointIndex - start + 1 else 0)
  {
    if pointIndex < |p.pointTypes| then
      match ContourIndexOf(p, pointIndex)
      case None => Err(PointIndexOutOfBounds(pointIndex))
      case Some(c) =>
        var start := ContourStart(p.contourInfo, c);
        var j := pointIndex - start;
        var n := p.contourInfo[c].endPoint + 1 - start;
        if !p.contourInfo[c].isClosed && (j == 0 || j == n - 1) then
          var isAppend := j != 0 || n == 1;
          Ok(Extend(c, if isAppend then j + 1 else 0, isAppend))
        else Ok(NewContour)
    else Ok(NewContour)
  }

  /** A click extends a contour exactly when the selected point is where `isStartOrEndPoint` is non-zero. */
  lemma AppendIndicesExtendIff(p: PathValue, pointIndex: int)
    requires Wf(p) && 0 <= pointIndex
    ensures AppendIndicesAt(p, pointIndex).value.Extend?
            <==> pointIndex < |p.pointTypes| && StartOrEndValue(p, pointIndex).value != 0
  {
  }

  /** `getAppendIndices`: the selection (a `Set`, in its iteration order) must hold exactly one item. */
  function AppendIndicesOf(p: PathValue, selection: seq<SelectionItem>): (r: Result<AppendIndices, PathError>)
    requires Wf(p)
    ensures |selection| != 1 ==> r == Ok(NewContour)
    ensures r.Err? ==> |selection| == 1 && selection[0].index < 0
  {
    if |selection| == 1 then AppendIndicesAt(p, selection[0].index) else Ok(NewContour)
  }

  /** The target `getAppendIndices` returns addresses a contour of `p` and the slot after its last point or before its first. */
  predicate FitsPath(p: PathValue, target: AppendIndices)
    requires Wf(p)
  {
    target.Extend? ==>
      && target.contourIndex < |p.contourInfo|
      && target.contourPointIndex == (if target.isAppend then |Contours(p)[target.contourIndex].pointTypes| else 0)
  }

  lemma AppendIndicesFit(p: PathValue, pointIndex: int)
    requires Wf(p) && AppendIndicesAt(p, pointIndex).Ok?
    ensures FitsPath(p, AppendIndicesAt(p, pointIndex).value)
  {
    var r := AppendIndicesAt(p, pointIndex).value;
    if r.Extend? {
      ContourBounds(p, r.contourIndex);
    }
  }

  //
  // Path changes and their replay on a list of contours
  //

  /** The changes the pen tool builds, all on the glyph's `path`. */
  datatype PathChange =
    | DeleteContour(contourIndex: nat)
    | InsertContour(contourIndex: nat, contour: PackedContour)
    | DeletePoint(contourIndex: nat, contourPointIndex: nat)
    | InsertPoint(contourIndex: nat, contourPointIndex: nat, point: Point)
    | MovePoint(pointIndex: nat, x: real, y: real)

  /** `emptyContour()`. */
  const EMPTY_CONTOUR := PackedContour([], [], false)

  predicate AllWf(cs: seq<PackedContour>) {
    forall k :: k in cs ==> WfContour(k)
  }

  /**
   * A structural change applied to a list of contours, or `None` when its
   * indices address nothing. A point move is not a structural change and
   * is not replayed here.
   */
  function ApplyChange(cs: seq<PackedContour>, ch: PathChange): (r: Option<seq<PackedContour>>)
    requires AllWf(cs)
    ensures r.Some? ==> AllWf(r.value)
  {
    match ch
    case DeleteContour(c) =>
      if c < |cs| then Some(RemoveAt(cs, c)) else None
    case InsertContour(c, k) =>
      if c <= |cs| && WfContour(k) then Some(InsertAt(cs, c, k)) else None
    case DeletePoint(c, j) =>
      if c < |cs| && j < |cs[c].pointTypes| then Some(cs[c := RemoveFromContour(cs[c], j)]) else None
    case InsertPoint(c, j, pt) =>
      if c < |cs| && j <= |cs[c].pointTypes|
      then Some(cs[c := InsertIntoContour(cs[c], j, pt.x, pt.y, PackPointType(pt.pointType, pt.smooth))])
      else None
    case MovePoint(_, _, _) => None
  }

  /** A list of changes applied in order, `None` as soon as one does not apply. */
  function ApplyChanges(cs: seq<PackedContour>, changes: seq<PathChange>): (r: Option<seq<PackedContour>>)
    requires AllWf(cs)
    ensures r.Some? ==> AllWf(r.value)
    decreases |changes|
  {
    if |changes| == 0 then Some(cs)
    else
      match ApplyChange(cs, changes[0])
      case None => None
      case Some(next) => ApplyChanges(next, changes[1..])
  }

  lemma {:induction false} ApplyChangesSnoc(cs: seq<PackedContour>, changes: seq<PathChange>, ch: PathChange)
    requires AllWf(cs)
    ensures ApplyChanges(cs, changes + [ch])
            == match ApplyChanges(cs, changes)
               case None => None
               case Some(d) => ApplyChange(d, ch)
    decreases |changes|
  {
    if |changes| == 0 {
      assert changes + [ch] == [ch];
      assert [ch][1..] == [];
    } else {
      assert (changes + [ch])[0] == changes[0];
      assert (changes + [ch])[1..] == changes[1..] + [ch];
      match ApplyChange(cs, changes[0]) {
        case None =>
        case Some(next) => ApplyChangesSnoc(next, changes[1..], ch);
      }
    }
  }

  /** `r` undoes `e`: the rollback entry the pen tool records beside each edit entry. */
  predicate Undoes(r: PathChange, e: PathChange) {
    match e
    case InsertContour(c, _) => r == DeleteContour(c)
    case InsertPoint(c, j, _) => r == DeletePoint(c, j)
    case _ => false
  }

  /** Rollback and edit lists of the same length whose entries undo each other pairwise. */
  predicate Matched(rollback: seq<PathChange>, edit: seq<PathChange>) {
    |rollback| == |edit| && forall k :: 0 <= k < |edit| ==> Undoes(rollback[k], edit[k])
  }

  lemma MatchedDropLast(rollback: seq<PathChange>, edit: seq<PathChange>)
    requires Matched(rollback, edit)
    ensures Matched(DropLast(rollback), DropLast(edit))
  {
  }

  lemma RemoveInserted(k: PackedContour, j: nat, x: real, y: real, t: int)
    requires WfContour(k) && j <= |k.pointTypes|
    ensures RemoveFromContour(InsertIntoContour(k, j, x, y, t), j) == k
  {
    var k2 := InsertIntoContour(k, j, x, y, t);
    assert k2.coordinates[..2 * j] == k.coordinates[..2 * j];
    assert k2.coordinates[2 * j + 2..] == k.coordinates[2 * j..];
    assert k2.pointTypes[..j] == k.pointTypes[..j];
    assert k2.pointTypes[j + 1..] == k.pointTypes[j..];
  }

  /** A rollback entry takes the contours back to what they were before its edit entry. */
  lemma UndoStep(cs: seq<PackedContour>, e: PathChange, r: PathChange)
    requires AllWf(cs) && Undoes(r, e) && ApplyChange(cs, e).Some?
    ensures ApplyChange(ApplyChange(cs, e).value, r) == Some(cs)
  {
    var d := ApplyChange(cs, e).value;
    match e {
      case InsertContour(c, k) =>
        assert RemoveAt(InsertAt(cs, c, k), c) == cs;
      case InsertPoint(c, j, pt) =>
        RemoveInserted(cs[c], j, pt.x, pt.y, PackPointType(pt.pointType, pt.smooth));
        assert d[c := RemoveFromContour(d[c], j)] == cs;
    }
  }

  /**
   * The rollback list, replayed last entry first (`getRollbackChange`),
   * takes the contours back to what they were before the edit list.
   */
  lemma {:induction false} RollbackUndoesEdit(cs: seq<PackedContour>, rollback: seq<PathChange>, edit: seq<PathChange>)
    requires AllWf(cs) && Matched(rollback, edit) && ApplyChanges(cs, edit).Some?
    ensures ApplyChanges(ApplyChanges(cs, edit).value, Reverse(rollback)) == Some(cs)
    decreases |edit|
  {
    if |edit| > 0 {
      var n := |edit|;
      var e, r := edit[n - 1], rollback[n - 1];
      var edit0, rollback0 := edit[..n - 1], rollback[..n - 1];
      assert edit == edit0 + [e];
      ApplyChangesSnoc(cs, edit0, e);
      var mid := ApplyChanges(cs, edit0).value;
      RollbackUndoesEdit(cs, rollback0, edit0);
      UndoStep(mid, e, r);
      var rev := Reverse(rollback);
      assert rev[0] == r;
      assert rev[1..] == Reverse(rollback0);
    }
  }

  //
  // PointAdder
  //

  /** The on-curve point a click adds: `{...anchorPoint}`. */
  function AnchorPoint(anchor: Vec): Point {
    Point(anchor.x, anchor.y, None, false)
  }

  /** The rollback list the constructor records. */
  function InitialRollback(c: nat, k: nat, isNewContour: bool): seq<PathChange> {
    (if isNewContour then [DeleteContour(c)] else []) + [DeletePoint(c, k)]
  }

  /** The edit list the constructor records. */
  function InitialEdit(c: nat, k: nat, isNewContour: bool, anchor: Vec): seq<PathChange> {
    (if isNewContour then [InsertContour(c, EMPTY_CONTOUR)] else []) + [InsertPoint(c, k, AnchorPoint(anchor))]
  }

  /**
   * What a drag inserts in place of the clicked point: the contour
   * indices of the incoming and outgoing handles, the insert index of
   * each new point and the points. A new contour gets the anchor and an
   * outgoing handle; an existing one a handle, a smooth anchor and a
   * handle. Prepending inserts every point at index 0.
   */
  datatype DragPlan = DragPlan(handleInIndex: Option<nat>, handleOutIndex: nat, insertIndices: seq<nat>, newPoints: seq<Point>)

  /** `_getIndicesAndPointsHandleOut` and `_getIndicesAndPointsHandleInOut`. */
  function DragPlanOf(isNewContour: bool, isAppend: bool, k: nat, anchor: Vec): (d: DragPlan)
    ensures |d.insertIndices| == |d.newPoints| == (if isNewContour then 2 else 3)
    ensures !isAppend ==> forall i :: 0 <= i < |d.insertIndices| ==> d.insertIndices[i] == 0
    ensures d.handleInIndex.Some? <==> !isNewContour
  {
    var handle := HandlePoint(anchor);
    if isNewContour then
      var newPoints := [AnchorPoint(anchor), handle];
      if isAppend then DragPlan(None, k + 1, [k, k + 1], newPoints)
      else DragPlan(None, 0, [0, 0], newPoints)
    else
      var newPoints := [handle, SmoothPoint(anchor), handle];
      if isAppend then DragPlan(Some(k), k + 2, [k, k + 1, k + 2], newPoints)
      else DragPlan(Some(2), 0, [0, 0, 0], newPoints)
  }

  /** `deletePoint` entries, one per insert index. */
  function DeletePoints(c: nat, insertIndices: seq<nat>): (r: seq<PathChange>)
    ensures |r| == |insertIndices|
    ensures forall i :: 0 <= i < |r| ==> r[i] == DeletePoint(c, insertIndices[i])
  {
    seq(|insertIndices|, i requires 0 <= i < |insertIndices| => DeletePoint(c, insertIndices[i]))
  }

  /** `insertPoint` entries, one per new point. */
  function InsertPoints(c: nat, insertIndices: seq<nat>, newPoints: seq<Point>): (r: seq<PathChange>)
    requires |insertIndices| == |newPoints|
    ensures |r| == |newPoints|
    ensures forall i :: 0 <= i < |r| ==> r[i] == InsertPoint(c, insertIndices[i], newPoints[i])
  {
    seq(|newPoints|, i requires 0 <= i < |newPoints| => InsertPoint(c, insertIndices[i], newPoints[i]))
  }

  /** `splice(-1)`: the last entry removed, nothing when there is none. */
  function DropLast<T>(s: seq<T>): (r: seq<T>)
    ensures |s| > 0 ==> r == s[..|s| - 1]
    ensures |s| == 0 ==> r == []
  {
    if |s| == 0 then [] else s[..|s| - 1]
  }

  /** `oppositeHandle`: the handle mirrored through the anchor. */
  function OppositeHandle(anchor: Vec, handle: Vec): (r: Vec)
    ensures r.x + handle.x == 2.0 * anchor.x && r.y + handle.y == 2.0 * anchor.y
  {
    EditBehavior.Vec(anchor.x - (handle.x - anchor.x), anchor.y - (handle.y - anchor.y))
  }

  /** Mirroring twice gives back the handle. */
  lemma OppositeHandleInvolution(anchor: Vec, handle: Vec)
    ensures OppositeHandle(anchor, OppositeHandle(anchor, handle)) == handle
  {
  }

  /** The moves `getIncrementalChange` records for a handle position. */
  function HandleMoves(start: nat, handleInIndex: Option<nat>, handleOutIndex: nat, anchor: Vec, handleOut: Vec): (r: seq<PathChange>)
    ensures |r| == (if handleInIndex.Some? then 2 else 1)
    ensures r[|r| - 1] == MovePoint(start + handleOutIndex, handleOut.x, handleOut.y)
    ensures handleInIndex.Some? ==>
              var h := OppositeHandle(anchor, handleOut);
              r[0] == MovePoint(start + handleInIndex.value, h.x, h.y)
  {
    (if handleInIndex.Some? then
       var h := OppositeHandle(anchor, handleOut);
       [MovePoint(start + handleInIndex.value, h.x, h.y)]
     else [])
    + [MovePoint(start + handleOutIndex, handleOut.x, handleOut.y)]
  }

  /** The loop of `startDragging`: one `deletePoint` and one `insertPoint` per new point. */
  method RecordInserts(c: nat, insertIndices: seq<nat>, newPoints: seq<Point>) returns (deletes: seq<PathChange>, inserts: seq<PathChange>)
    requires |insertIndices| == |newPoints|
    ensures deletes == DeletePoints(c, insertIndices) && inserts == InsertPoints(c, insertIndices, newPoints)
  {
    deletes, inserts := [], [];
    var i := 0;
    while i < |newPoints|
      invariant i <= |newPoints|
      invariant deletes == DeletePoints(c, insertIndices[..i])
      invariant inserts == InsertPoints(c, insertIndices[..i], newPoints[..i])
    {
      deletes := deletes + [DeletePoint(c, insertIndices[i])];
      inserts := inserts + [InsertPoint(c, insertIndices[i], newPoints[i])];
      i := i + 1;
    }
    assert insertIndices[..i] == insertIndices && newPoints[..i] == newPoints;
  }

  lemma MatchedConcat(rollback: seq<PathChange>, edit: seq<PathChange>, c: nat, insertIndices: seq<nat>, newPoints: seq<Point>)
    requires Matched(rollback, edit) && |insertIndices| == |newPoints|
    ensures Matched(rollback + DeletePoints(c, insertIndices), edit + InsertPoints(c, insertIndices, newPoints))
  {
  }

  /** The state of one click or drag of the pen tool. */
  class PointAdder {
    const anchorPoint: Vec
    const initialSelection: seq<SelectionItem>
    var isNewContour: bool
    var rollbackChanges: seq<PathChange>
    var editChanges: seq<PathChange>
    var moveChanges: seq<PathChange>
    var newSelection: seq<SelectionItem>
    var contourIndex: nat
    var contourPointIndex: nat
    var isAppend: bool
    var contourStartPoint: nat
    var handleInIndex: Option<nat>
    var handleOutIndex: Option<nat>

    /** Every rollback entry undoes the edit entry recorded with it. */
    predicate Valid()
      reads this
    {
      Matched(rollbackChanges, editChanges)
    }

    /**
     * The constructor once `getAppendIndices` has answered: a new contour
     * is added after the last one, and the anchor point is inserted at the
     * contour index the answer names.
     */
    constructor (p: PathValue, target: AppendIndices, initialSelection: seq<SelectionItem>, anchorPoint: Vec)
      requires Wf(p) && FitsPath(p, target)
      ensures Valid()
      ensures this.anchorPoint == anchorPoint && this.initialSelection == initialSelection
      ensures isNewContour == target.NewContour?
      ensures contourIndex == (if target.NewContour? then |p.contourInfo| else target.contourIndex)
      ensures contourPointIndex == (if target.NewContour? then 0 else target.contourPointIndex)
      ensures isAppend == (target.NewContour? || target.isAppend)
      ensures contourStartPoint == ContourStart(p.contourInfo, contourIndex)
      ensures rollbackChanges == InitialRollback(contourIndex, contourPointIndex, isNewContour)
      ensures editChanges == InitialEdit(contourIndex, contourPointIndex, isNewContour, anchorPoint)
      ensures moveChanges == [] && handleInIndex == None && handleOutIndex == None
      ensures newSelection == [SceneController.SelectionItem("point", contourStartPoint + contourPointIndex)]
    {
      this.anchorPoint := anchorPoint;
      this.initialSelection := initialSelection;
      var c: nat, k: nat, append: bool;
      if target.NewContour? {
        isNewContour := true;
        c, k, append := |p.contourInfo|, 0, true;
      } else {
        isNewContour := false;
        c, k, append := target.contourIndex, target.contourPointIndex, target.isAppend;
      }
      var start: nat;
      if c >= |p.contourInfo| {
        start := |p.pointTypes|;
        assert ContourStart(p.contourInfo, c) == start;
      } else {
        ContourStartBounds(p, c);
        start := ContourStart(p.contourInfo, c);
      }
      newSelection := [SceneController.SelectionItem("point", start + k)];
      rollbackChanges := InitialRollback(c, k, target.NewContour?);
      editChanges := InitialEdit(c, k, target.NewContour?, anchorPoint);
      moveChanges := [];
      contourIndex, contourPointIndex, isAppend, contourStartPoint := c, k, append, start;
      handleInIndex, handleOutIndex := None, None;
    }

    /**
     * `startDragging`: the last rollback and edit entries (the plain
     * click) are replaced by one matched pair per point of the drag plan,
     * and the outgoing handle becomes the selection.
     */
    method StartDragging()
      requires Valid()
      modifies this
      ensures Valid()
      ensures var d := DragPlanOf(isNewContour, isAppend, contourPointIndex, anchorPoint);
              && rollbackChanges == DropLast(old(rollbackChanges)) + DeletePoints(contourIndex, d.insertIndices)
              && editChanges == DropLast(old(editChanges)) + InsertPoints(contourIndex, d.insertIndices, d.newPoints)
              && handleInIndex == d.handleInIndex && handleOutIndex == Some(d.handleOutIndex)
              && newSelection == [SceneController.SelectionItem("point", contourStartPoint + d.handleOutIndex)]
      ensures isNewContour == old(isNewContour) && isAppend == old(isAppend) && contourIndex == old(contourIndex)
      ensures contourPointIndex == old(contourPointIndex) && contourStartPoint == old(contourStartPoint)
      ensures moveChanges == old(moveChanges)
    {
      MatchedDropLast(rollbackChanges, editChanges);
      rollbackChanges := DropLast(rollbackChanges);
      editChanges := DropLast(editChanges);
      var d := DragPlanOf(isNewContour, isAppend, contourPointIndex, anchorPoint);
      handleInIndex := d.handleInIndex;
      handleOutIndex := Some(d.handleOutIndex);
      var deletes, inserts := RecordInserts(contourIndex, d.insertIndices, d.newPoints);
      MatchedConcat(rollbackChanges, editChanges, contourIndex, d.insertIndices, d.newPoints);
      rollbackChanges, editChanges := rollbackChanges + deletes, editChanges + inserts;
      newSelection := [SceneController.SelectionItem("point", contourStartPoint + d.handleOutIndex)];
    }

    /** `getSelection`. */
    function Selection(): seq<SelectionItem>
      reads this
    {
      newSelection
    }

    /** `getRollbackChange`: the rollback entries, last recorded first. */
    function RollbackChange(): (r: seq<PathChange>)
      reads this
      ensures |r| == |rollbackChanges|
    {
      Reverse(rollbackChanges)
    }

    /** `getInitialChange`. */
    function InitialChange(): seq<PathChange>
      reads this
    {
      editChanges
    }

    /**
     * `getIncrementalChange` for a handle position already constrained
     * and rounded: the move list is rebuilt from scratch.
     */
    method IncrementalChange(handleOut: Vec) returns (r: seq<PathChange>)
      requires handleOutIndex.Some?
      modifies this
      ensures handleOutIndex.Some?
      ensures moveChanges == HandleMoves(contourStartPoint, handleInIndex, handleOutIndex.value, anchorPoint, handleOut)
      ensures r == moveChanges
      ensures rollbackChanges == old(rollbackChanges) && editChanges == old(editChanges)
      ensures handleInIndex == old(handleInIndex) && handleOutIndex == old(handleOutIndex)
      ensures contourStartPoint == old(contourStartPoint) && newSelection == old(newSelection)
    {
      moveChanges := [];
      if handleInIndex.Some? {
        var handleIn := OppositeHandle(anchorPoint, handleOut);
        moveChanges := moveChanges + [MovePoint(contourStartPoint + handleInIndex.value, handleIn.x, handleIn.y)];
      }
      moveChanges := moveChanges + [MovePoint(contourStartPoint + handleOutIndex.value, handleOut.x, handleOut.y)];
      r := moveChanges;
    }

    /** `getFinalChange`: the edit entries, then the most recent moves. */
    function FinalChange(): (r: seq<PathChange>)
      reads this
      ensures |r| == |editChanges| + |moveChanges|
      ensures r[..|editChanges|] == editChanges && r[|editChanges|..] == moveChanges
    {
      editChanges + moveChanges
    }
  }

  /**
   * `new PointAdder(path, initialSelection, anchorPoint)`: raises what
   * `getAppendIndices` raises.
   */
  method NewPointAdder(path: VarPackedPath, initialSelection: seq<SelectionItem>, anchorPoint: Vec)
    returns (r: Result<PointAdder, PathError>)
    requires path.Valid()
    ensures r.Ok? <==> AppendIndicesOf(path.Value(), initialSelection).Ok?
    ensures r.Ok? ==> fresh(r.value) && r.value.Valid()
                      && r.value.isNewContour == AppendIndicesOf(path.Value(), initialSelection).value.NewContour?
  {
    var p := path.Value();
    var target := AppendIndicesOf(p, initialSelection);
    if target.Err? {
      return Err(target.error);
    }
    if |initialSelection| == 1 {
      AppendIndicesFit(p, initialSelection[0].index);
    }
    var adder := new PointAdder(p, target.value, initialSelection, anchorPoint);
    r := Ok(adder);
  }

  //
  // What the recorded lists do to the path
  //

  /** The edit list of a click applies to the path's contours, and its rollback then restores them. */
  lemma ClickRoundTrip(p: PathValue, target: AppendIndices, anchor: Vec)
    requires Wf(p) && FitsPath(p, target)
    ensures var c := if target.NewContour? then |p.contourInfo| else target.contourIndex;
            var k := if target.NewContour? then 0 else target.contourPointIndex;
            var edit := InitialEdit(c, k, target.NewContour?, anchor);
            var cs := Contours(p);
            && AllWf(cs)
            && ApplyChanges(cs, edit).Some?
            && ApplyChanges(ApplyChanges(cs, edit).value, Reverse(InitialRollback(c, k, target.NewContour?))) == Some(cs)
  {
    var cs := Contours(p);
    ContoursWfAll(p);
    var isNew := target.NewContour?;
    var c := if isNew then |p.contourInfo| else target.contourIndex;
    var k := if isNew then 0 else target.contourPointIndex;
    var edit := InitialEdit(c, k, isNew, anchor);
    var pt := AnchorPoint(anchor);
    if isNew {
      var cs1 := InsertAt(cs, c, EMPTY_CONTOUR);
      assert ApplyChange(cs, edit[0]) == Some(cs1);
      assert ApplyChange(cs1, edit[1]).Some?;
      assert edit[1..][1..] == [];
      assert ApplyChanges(cs1, edit[1..]) == ApplyChange(cs1, edit[1]);
    } else {
      assert edit == [InsertPoint(c, k, pt)];
      assert edit[1..] == [];
    }
    RollbackUndoesEdit(cs, InitialRollback(c, k, isNew), edit);
  }

  /**
   * The contour a drag leaves behind, the points still at the anchor
   * position: a new contour gets an on-curve anchor and a cubic handle;
   * an existing one a cubic handle, a smooth anchor and a cubic handle,
   * after its last point or before its first.
   */
  function DraggedContour(k: PackedContour, isNewContour: bool, isAppend: bool, anchor: Vec): (r: PackedContour)
    ensures WfContour(k) ==> WfContour(r)
    ensures |r.pointTypes| == |k.pointTypes| + (if isNewContour then 2 else 3)
  {
    var x, y := anchor.x, anchor.y;
    var coordinates := if isNewContour then [x, y] + [x, y] else [x, y] + [x, y] + [x, y];
    var pointTypes :=
      if isNewContour then (if isAppend then [ON_CURVE] + [OFF_CURVE_CUBIC] else [OFF_CURVE_CUBIC] + [ON_CURVE])
      else [OFF_CURVE_CUBIC] + [ON_CURVE + SMOOTH_FLAG] + [OFF_CURVE_CUBIC];
    if isAppend then ExtendContour(k, coordinates, pointTypes)
    else PackedContour(coordinates + k.coordinates, pointTypes + k.pointTypes, k.isClosed)
  }

  /** The drag's handle indices address cubic handles of the dragged contour, on either side of the anchor. */
  lemma DraggedHandles(k: PackedContour, isNewContour: bool, isAppend: bool, base: nat, anchor: Vec)
    requires (isAppend && base == |k.pointTypes|) || (!isAppend && base == 0)
    ensures var d := DragPlanOf(isNewContour, isAppend, base, anchor);
            var r := DraggedContour(k, isNewContour, isAppend, anchor);
            && d.handleOutIndex < |r.pointTypes| && r.pointTypes[d.handleOutIndex] == OFF_CURVE_CUBIC
            && (d.handleInIndex.Some? ==>
                  && d.handleInIndex.value < |r.pointTypes| && r.pointTypes[d.handleInIndex.value] == OFF_CURVE_CUBIC
                  && r.pointTypes[(d.handleInIndex.value + d.handleOutIndex) / 2] == ON_CURVE + SMOOTH_FLAG)
  {
  }

  lemma InsertAtEnd(k: PackedContour, x: real, y: real, t: int)
    requires WfContour(k)
    ensures InsertIntoContour(k, |k.pointTypes|, x, y, t) == ExtendContour(k, [x, y], [t])
  {
    assert k.coordinates[..2 * |k.pointTypes|] == k.coordinates;
  }

  lemma InsertAtFront(k: PackedContour, x: real, y: real, t: int)
    requires WfContour(k)
    ensures InsertIntoContour(k, 0, x, y, t) == PackedContour([x, y] + k.coordinates, [t] + k.pointTypes, k.isClosed)
  {
  }

  /** A list of one change more than another, applied: the first change, then the rest. */
  lemma ApplyChangesCons(cs: seq<PackedContour>, ch: PathChange, rest: seq<PathChange>)
    requires AllWf(cs)
    ensures ApplyChanges(cs, [ch] + rest)
            == match ApplyChange(cs, ch)
               case None => None
               case Some(next) => ApplyChanges(next, rest)
  {
    assert ([ch] + rest)[0] == ch && ([ch] + rest)[1..] == rest;
  }

  /** The drag's inserts, replayed, put `DraggedContour` in place of the clicked contour. */
  lemma DragInserts(cs: seq<PackedContour>, c: nat, isNewContour: bool, isAppend: bool, base: nat, anchor: Vec)
    requires AllWf(cs) && c < |cs|
    requires (isAppend && base == |cs[c].pointTypes|) || (!isAppend && base == 0)
    ensures var d := DragPlanOf(isNewContour, isAppend, base, anchor);
            ApplyChanges(cs, InsertPoints(c, d.insertIndices, d.newPoints))
            == Some(cs[c := DraggedContour(cs[c], isNewContour, isAppend, anchor)])
  {
    var d := DragPlanOf(isNewContour, isAppend, base, anchor);
    var changes := InsertPoints(c, d.insertIndices, d.newPoints);
    var on, handle, smooth := AnchorPoint(anchor), HandlePoint(anchor), SmoothPoint(anchor);
    var steps: seq<PackedContour>;
    if isNewContour && isAppend {
      assert changes == [InsertPoint(c, base, on), InsertPoint(c, base + 1, handle)];
      steps := NewAppendSteps(c, cs[c], anchor);
    } else if isNewContour {
      assert changes == [InsertPoint(c, 0, on), InsertPoint(c, 0, handle)];
      steps := NewPrependSteps(c, cs[c], anchor);
    } else if isAppend {
      assert changes == [InsertPoint(c, base, handle), InsertPoint(c, base + 1, smooth), InsertPoint(c, base + 2, handle)];
      steps := ExtendAppendSteps(c, cs[c], anchor);
    } else {
      assert changes == [InsertPoint(c, 0, handle), InsertPoint(c, 0, smooth), InsertPoint(c, 0, handle)];
      steps := ExtendPrependSteps(c, cs[c], anchor);
    }
    DragStepsReplay(cs, c, changes, steps);
  }

  /** Appending point `p` to contour `k` is one insert step. */
  lemma AppendStep(c: nat, k: PackedContour, p: Point)
    requires WfContour(k)
    ensures InsertStep(InsertPoint(c, |k.pointTypes|, p), c, k,
                       ExtendContour(k, [p.x, p.y], [PackPointType(p.pointType, p.smooth)]))
  {
    InsertAtEnd(k, p.x, p.y, PackPointType(p.pointType, p.smooth));
  }

  /** Inserting point `p` at the front of contour `k` is one insert step. */
  lemma PrependStep(c: nat, k: PackedContour, p: Point)
    requires WfContour(k)
    ensures InsertStep(InsertPoint(c, 0, p), c, k,
                       PackedContour([p.x, p.y] + k.coordinates, [PackPointType(p.pointType, p.smooth)] + k.pointTypes, k.isClosed))
  {
    InsertAtFront(k, p.x, p.y, PackPointType(p.pointType, p.smooth));
  }

  /** The cubic handle a drag inserts at the anchor position. */
  function HandlePoint(anchor: Vec): Point {
    Point(anchor.x, anchor.y, Some(POINT_TYPE_CUBIC), false)
  }

  /** The smooth on-curve point a drag inserts when it extends a contour. */
  function SmoothPoint(anchor: Vec): Point {
    Point(anchor.x, anchor.y, None, true)
  }

  /** A new contour: the anchor, then its handle, appended. */
  lemma NewAppendSteps(c: nat, k: PackedContour, anchor: Vec) returns (steps: seq<PackedContour>)
    requires WfContour(k)
    ensures InsertSteps(c, [InsertPoint(c, |k.pointTypes|, AnchorPoint(anchor)), InsertPoint(c, |k.pointTypes| + 1, HandlePoint(anchor))], steps)
    ensures steps[0] == k && steps[2] == DraggedContour(k, true, true, anchor)
  {
    var on, handle := AnchorPoint(anchor), HandlePoint(anchor);
    var changes := [InsertPoint(c, |k.pointTypes|, on), InsertPoint(c, |k.pointTypes| + 1, handle)];
    var k1 := ExtendContour(k, [on.x, on.y], [ON_CURVE]);
    var k2 := ExtendContour(k1, [handle.x, handle.y], [OFF_CURVE_CUBIC]);
    AppendStep(c, k, on);
    AppendStep(c, k1, handle);
    steps := [k, k1, k2];
    assert InsertStep(changes[0], c, steps[0], steps[1]);
    assert InsertStep(changes[1], c, steps[1], steps[2]);
    AppendTwo(k.coordinates, [on.x, on.y], [handle.x, handle.y]);
    AppendTwo(k.pointTypes, [ON_CURVE], [OFF_CURVE_CUBIC]);
  }

  /** A new contour: the anchor, then its handle, both inserted at the front. */
  lemma NewPrependSteps(c: nat, k: PackedContour, anchor: Vec) returns (steps: seq<PackedContour>)
    requires WfContour(k)
    ensures InsertSteps(c, [InsertPoint(c, 0, AnchorPoint(anchor)), InsertPoint(c, 0, HandlePoint(anchor))], steps)
    ensures steps[0] == k && steps[2] == DraggedContour(k, true, false, anchor)
  {
    var on, handle := AnchorPoint(anchor), HandlePoint(anchor);
    var changes := [InsertPoint(c, 0, on), InsertPoint(c, 0, handle)];
    var k1 := PackedContour([on.x, on.y] + k.coordinates, [ON_CURVE] + k.pointTypes, k.isClosed);
    var k2 := PackedContour([handle.x, handle.y] + k1.coordinates, [OFF_CURVE_CUBIC] + k1.pointTypes, k.isClosed);
    PrependStep(c, k, on);
    PrependStep(c, k1, handle);
    steps := [k, k1, k2];
    assert InsertStep(changes[0], c, steps[0], steps[1]);
    assert InsertStep(changes[1], c, steps[1], steps[2]);
    PrependTwo(k.coordinates, [on.x, on.y], [handle.x, handle.y]);
    PrependTwo(k.pointTypes, [ON_CURVE], [OFF_CURVE_CUBIC]);
  }

  /** An extended contour: handle, smooth anchor, handle, appended. */
  lemma ExtendAppendSteps(c: nat, k: PackedContour, anchor: Vec) returns (steps: seq<PackedContour>)
    requires WfContour(k)
    ensures var n := |k.pointTypes|;
            InsertSteps(c, [InsertPoint(c, n, HandlePoint(anchor)), InsertPoint(c, n + 1, SmoothPoint(anchor)),
                            InsertPoint(c, n + 2, HandlePoint(anchor))], steps)
    ensures steps[0] == k && steps[3] == DraggedContour(k, false, true, anchor)
  {
    var n := |k.pointTypes|;
    var smooth, handle := SmoothPoint(anchor), HandlePoint(anchor);
    var changes := [InsertPoint(c, n, handle), InsertPoint(c, n + 1, smooth), InsertPoint(c, n + 2, handle)];
    var k1 := ExtendContour(k, [handle.x, handle.y], [OFF_CURVE_CUBIC]);
    var k2 := ExtendContour(k1, [smooth.x, smooth.y], [ON_CURVE + SMOOTH_FLAG]);
    var k3 := ExtendContour(k2, [handle.x, handle.y], [OFF_CURVE_CUBIC]);
    AppendStep(c, k, handle);
    AppendStep(c, k1, smooth);
    AppendStep(c, k2, handle);
    steps := [k, k1, k2, k3];
    assert InsertStep(changes[0], c, steps[0], steps[1]);
    assert InsertStep(changes[1], c, steps[1], steps[2]);
    assert InsertStep(changes[2], c, steps[2], steps[3]);
    AppendThree(k.coordinates, [handle.x, handle.y], [smooth.x, smooth.y], [handle.x, handle.y]);
    AppendThree(k.pointTypes, [OFF_CURVE_CUBIC], [ON_CURVE + SMOOTH_FLAG], [OFF_CURVE_CUBIC]);
  }

  /** An extended contour: handle, smooth anchor, handle, each inserted at the front. */
  lemma ExtendPrependSteps(c: nat, k: PackedContour, anchor: Vec) returns (steps: seq<PackedContour>)
    requires WfContour(k)
    ensures InsertSteps(c, [InsertPoint(c, 0, HandlePoint(anchor)), InsertPoint(c, 0, SmoothPoint(anchor)),
                            InsertPoint(c, 0, HandlePoint(anchor))], steps)
    ensures steps[0] == k && steps[3] == DraggedContour(k, false, false, anchor)
  {
    var smooth, handle := SmoothPoint(anchor), HandlePoint(anchor);
    var changes := [InsertPoint(c, 0, handle), InsertPoint(c, 0, smooth), InsertPoint(c, 0, handle)];
    var k1 := PackedContour([handle.x, handle.y] + k.coordinates, [OFF_CURVE_CUBIC] + k.pointTypes, k.isClosed);
    var k2 := PackedContour([smooth.x, smooth.y] + k1.coordinates, [ON_CURVE + SMOOTH_FLAG] + k1.pointTypes, k.isClosed);
    var k3 := PackedContour([handle.x, handle.y] + k2.coordinates, [OFF_CURVE_CUBIC] + k2.pointTypes, k.isClosed);
    PrependStep(c, k, handle);
    PrependStep(c, k1, smooth);
    PrependStep(c, k2, handle);
    steps := [k, k1, k2, k3];
    assert InsertStep(changes[0], c, steps[0], steps[1]);
    assert InsertStep(changes[1], c, steps[1], steps[2]);
    assert InsertStep(changes[2], c, steps[2], steps[3]);
    PrependThree(k.coordinates, [handle.x, handle.y], [smooth.x, smooth.y], [handle.x, handle.y]);
    PrependThree(k.pointTypes, [OFF_CURVE_CUBIC], [ON_CURVE + SMOOTH_FLAG], [OFF_CURVE_CUBIC]);
  }

  lemma AppendTwo<T>(a: seq<T>, u: seq<T>, v: seq<T>)
    ensures a + u + v == a + (u + v)
  {
  }

  lemma PrependTwo<T>(a: seq<T>, u: seq<T>, v: seq<T>)
    ensures v + (u + a) == (v + u) + a
  {
  }

  lemma AppendThree<T>(a: seq<T>, u: seq<T>, v: seq<T>, w: seq<T>)
    ensures a + u + v + w == a + (u + v + w)
  {
  }

  lemma PrependThree<T>(a: seq<T>, u: seq<T>, v: seq<T>, w: seq<T>)
    ensures w + (v + (u + a)) == (w + v + u) + a
  {
  }

  /** `ch` inserts a point into contour `c`, turning it from `before` into `after`. */
  predicate InsertStep(ch: PathChange, c: nat, before: PackedContour, after: PackedContour) {
    && ch.InsertPoint? && ch.contourIndex == c
    && WfContour(before) && ch.contourPointIndex <= |before.pointTypes|
    && InsertIntoContour(before, ch.contourPointIndex, ch.point.x, ch.point.y,
                         PackPointType(ch.point.pointType, ch.point.smooth)) == after
  }

  /** `changes` are inserts into contour `c` that take it through `steps`, one change per step. */
  predicate InsertSteps(c: nat, changes: seq<PathChange>, steps: seq<PackedContour>) {
    |steps| == |changes| + 1 && forall i :: 0 <= i < |changes| ==> InsertStep(changes[i], c, steps[i], steps[i + 1])
  }

  /** Replaying inserts into contour `c` that move it through `steps` leaves it at the last step. */
  lemma {:induction false} DragStepsReplay(cs: seq<PackedContour>, c: nat, changes: seq<PathChange>, steps: seq<PackedContour>)
    requires AllWf(cs) && c < |cs| && InsertSteps(c, changes, steps) && steps[0] == cs[c]
    ensures ApplyChanges(cs, changes) == Some(cs[c := steps[|changes|]])
    decreases |changes|
  {
    if |changes| == 0 {
      assert cs[c := steps[0]] == cs;
    } else {
      var next := cs[c := steps[1]];
      assert InsertStep(changes[0], c, steps[0], steps[1]);
      assert ApplyChange(cs, changes[0]) == Some(next);
      DragStepsReplay(next, c, changes[1..], steps[1..]);
      assert next[c := steps[1..][|changes| - 1]] == cs[c := steps[|changes|]];
    }
  }

  /**
   * The edit list after a click and a drag turns the path's contours into
   * the dragged ones: a new contour holding the anchor and its handle
   * after the last contour, or the clicked contour extended by a handle,
   * a smooth anchor and a handle. The rollback list then restores them.
   */
  lemma DragRoundTrip(p: PathValue, target: AppendIndices, anchor: Vec)
    requires Wf(p) && FitsPath(p, target)
    ensures var isNew := target.NewContour?;
            var c := if isNew then |p.contourInfo| else target.contourIndex;
            var k := if isNew then 0 else target.contourPointIndex;
            var isAppend := isNew || target.isAppend;
            var d := DragPlanOf(isNew, isAppend, k, anchor);
            var rollback := DropLast(InitialRollback(c, k, isNew)) + DeletePoints(c, d.insertIndices);
            var edit := DropLast(InitialEdit(c, k, isNew, anchor)) + InsertPoints(c, d.insertIndices, d.newPoints);
            var cs := Contours(p);
            && AllWf(cs)
            && ApplyChanges(cs, edit)
               == Some(if isNew then InsertAt(cs, c, DraggedContour(EMPTY_CONTOUR, true, true, anchor))
                       else cs[c := DraggedContour(cs[c], false, isAppend, anchor)])
            && ApplyChanges(ApplyChanges(cs, edit).value, Reverse(rollback)) == Some(cs)
  {
    var cs := Contours(p);
    ContoursWfAll(p);
    var isNew := target.NewContour?;
    var c := if isNew then |p.contourInfo| else target.contourIndex;
    var k := if isNew then 0 else target.contourPointIndex;
    var isAppend := isNew || target.isAppend;
    var d := DragPlanOf(isNew, isAppend, k, anchor);
    var inserts := InsertPoints(c, d.insertIndices, d.newPoints);
    var rollback := DropLast(InitialRollback(c, k, isNew)) + DeletePoints(c, d.insertIndices);
    var edit := DropLast(InitialEdit(c, k, isNew, anchor)) + inserts;
    if isNew {
      var cs1 := InsertAt(cs, c, EMPTY_CONTOUR);
      assert edit == [InsertContour(c, EMPTY_CONTOUR)] + inserts;
      ApplyChangesCons(cs, InsertContour(c, EMPTY_CONTOUR), inserts);
      DragInserts(cs1, c, true, true, 0, anchor);
      assert cs1[c := DraggedContour(EMPTY_CONTOUR, true, true, anchor)] == InsertAt(cs, c, DraggedContour(EMPTY_CONTOUR, true, true, anchor));
    } else {
      assert edit == inserts;
      DragInserts(cs, c, false, isAppend, k, anchor);
    }
    MatchedConcat(DropLast(InitialRollback(c, k, isNew)), DropLast(InitialEdit(c, k, isNew, anchor)), c, d.insertIndices, d.newPoints);
    RollbackUndoesEdit(cs, rollback, edit);
  }

  /** Every contour of a well-formed path is well-formed. */
  lemma ContoursWfAll(p: PathValue)
    requires Wf(p)
    ensures AllWf(Contours(p))
  {
    forall c | 0 <= c < |Contours(p)| ensures WfContour(Contours(p)[c]) {
      ContourBounds(p, c);
    }
  }
}
