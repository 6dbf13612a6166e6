// The pointer tool's index logic (edit-tools-pointer.js): the behaviour
// name and selection operation picked from the modifier keys, the
// neighbours of a point, the smooth toggle of a double click on points,
// and the on-curve points a double click on a contour selects.

module PointerTool {
  import opened Base
  import opened PathData
  import opened VarPath
  import opened EditBehavior

  //
  // getBehaviorName
  //

  const BEHAVIOR_NAMES: seq<string> := ["default", "constrain", "alternate", "alternate-constrain"]

  function BoolInt(b: bool): nat {
    if b then 1 else 0
  }

  /** `getBehaviorName`: shift asks for a constrained drag, alt for the alternate one. */
  function BehaviorName(shift: bool, alt: bool): (name: string)
    ensures name == "default" <==> !shift && !alt
    ensures name == "constrain" <==> shift && !alt
    ensures name == "alternate" <==> !shift && alt
    ensures name == "alternate-constrain" <==> shift && alt
  {
    BEHAVIOR_NAMES[BoolInt(shift) + 2 * BoolInt(alt)]
  }

  /** Different modifier states never share a behaviour name. */
  lemma BehaviorNameInjective(shift1: bool, alt1: bool, shift2: bool, alt2: bool)
    requires BehaviorName(shift1, alt1) == BehaviorName(shift2, alt2)
    ensures shift1 == shift2 && alt1 == alt2
  {
    var name := BehaviorName(shift1, alt1);
    assert name in BEHAVIOR_NAMES;
  }

  //
  // getSelectModeFunction
  //

  /** The set operation that combines the current selection with the clicked or swept one. */
  datatype SelectMode = Replace | Union | Difference | SymmetricDifference

  /** `getSelectModeFunction`: shift toggles or removes, the command key adds. */
  function SelectModeOf(shift: bool, command: bool): (m: SelectMode)
    ensures m == Difference <==> shift && command
    ensures m == SymmetricDifference <==> shift && !command
    ensures m == Union <==> !shift && command
    ensures m == Replace <==> !shift && !command
  {
    if shift then (if command then Difference else SymmetricDifference)
    else if command then Union else Replace
  }

  /** The mode applied to the current selection `a` and the new one `b`; `replace` returns `b`. */
  function ApplySelectMode<T>(m: SelectMode, a: set<T>, b: set<T>): set<T> {
    match m
    case Replace => b
    case Union => a + b
    case Difference => a - b
    case SymmetricDifference => (a - b) + (b - a)
  }

  /** What each modifier state does to one selection item. */
  lemma SelectModeMembership<T>(shift: bool, command: bool, a: set<T>, b: set<T>, x: T)
    ensures var r := ApplySelectMode(SelectModeOf(shift, command), a, b);
            && (!shift && !command ==> (x in r <==> x in b))
            && (!shift && command ==> (x in r <==> x in a || x in b))
            && (shift && command ==> (x in r <==> x in a && x !in b))
            && (shift && !command ==> (x in r <==> (x in a) != (x in b)))
  {
  }

  /** Shift-clicking the same items twice restores the selection. */
  lemma SymmetricDifferenceTwice<T>(a: set<T>, b: set<T>)
    ensures var m := SelectModeOf(true, false);
            ApplySelectMode(m, ApplySelectMode(m, a, b), b) == a
  {
    var m := SelectModeOf(true, false);
    var once := ApplySelectMode(m, a, b);
    var twice := ApplySelectMode(m, once, b);
    forall x
      ensures x in twice <==> x in a
    {
      SelectModeMembership(true, false, a, b, x);
      SelectModeMembership(true, false, once, b, x);
    }
  }

  //
  // neighborPoints
  //

  /** `[prevIndex, prevPoint, nextIndex, nextPoint]`; a missing neighbour is `None`. */
  datatype Neighbors = Neighbors(prevIndex: Option<nat>, prevPoint: Option<Point>, nextIndex: Option<nat>, nextPoint: Option<Point>)

  function PointAtIndex(p: PathValue, i: Option<nat>): Option<Point>
    requires |p.coordinates| == 2 * |p.pointTypes|
  {
    if i.Some? then GetPointValue(p, i.value) else None
  }

  /** JavaScript's `modulo` (Dafny's `%` for a positive divisor) one step outside the range `[0, n)`. */
  lemma ModuloNear(a: int, n: int)
    requires n > 0 && -1 <= a <= n
    ensures a % n == if a < 0 then n - 1 else if a == n then 0 else a
  {
    if a < 0 {
      assert a == n * (-1) + (n - 1);
    } else if a == n {
      assert a == n * 1 + 0;
    }
  }

  /**
   * The neighbour slots of slot `j` in a contour of `n` points starting at
   * `start`: wrapping around (JavaScript `modulo`, which never returns a
   * negative value for a positive divisor) in a closed contour, missing
   * past the ends of an open one.
   */
  function NeighborIndices(start: nat, n: nat, j: int, isClosed: bool): (r: (Option<nat>, Option<nat>))
    requires 0 <= j < n
    ensures isClosed ==> r.0 == Some(if j == 0 then start + n - 1 else start + j - 1)
    ensures isClosed ==> r.1 == Some(if j == n - 1 then start else start + j + 1)
    ensures !isClosed ==> r.0 == (if j == 0 then None else Some(start + j - 1))
    ensures !isClosed ==> r.1 == (if j == n - 1 then None else Some(start + j + 1))
  {
    ModuloNear(j - 1, n);
    ModuloNear(j + 1, n);
    var prev := if isClosed then (j - 1) % n else j - 1;
    var next := if isClosed then (j + 1) % n else j + 1;
    (if prev >= 0 then Some(start + prev) else None, if next < n then Some(start + next) else None)
  }

  /**
   * `neighborPoints`: the previous and next point of the point's contour,
   * wrapping around in a closed contour and missing past the ends of an
   * open one; an index outside the path raises.
   */
  function NeighborPoints(p: PathValue, pointIndex: int): (r: Result<Neighbors, PathError>)
    requires Wf(p)
    ensures r.Err? <==> !(0 <= pointIndex < |p.pointTypes|)
    ensures r.Err? ==> r.error == PointIndexOutOfBounds(pointIndex)
  {
    match ContourIndexOf(p, pointIndex)
    case None => Err(PointIndexOutOfBounds(pointIndex))
    case Some(c) =>
      ContourBounds(p, c);
      var start := ContourStart(p.contourInfo, c);
      var numPoints := p.contourInfo[c].endPoint + 1 - start;
      var (prevIndex, nextIndex) := NeighborIndices(start, numPoints, pointIndex - start, p.contourInfo[c].isClosed);
      Ok(Neighbors(prevIndex, PointAtIndex(p, prevIndex), nextIndex, PointAtIndex(p, nextIndex)))
  }

  /** The first and last point of the contour holding point `i`, and whether it is closed. */
  lemma NeighborContour(p: PathValue, i: int) returns (start: nat, last: nat, isClosed: bool)
    requires Wf(p) && 0 <= i < |p.pointTypes|
    ensures var c := ContourIndexOf(p, i).value;
            && start == ContourStart(p.contourInfo, c) && last == p.contourInfo[c].endPoint
            && isClosed == p.contourInfo[c].isClosed
            && start <= i <= last < |p.pointTypes|
    ensures var nb := NeighborPoints(p, i).value;
            (nb.prevIndex, nb.nextIndex) == NeighborIndices(start, last + 1 - start, i - start, isClosed)
  {
    var c := ContourIndexOf(p, i).value;
    ContourBounds(p, c);
    start, last, isClosed := ContourStart(p.contourInfo, c), p.contourInfo[c].endPoint, p.contourInfo[c].isClosed;
  }

  /**
   * The neighbours of a point of a closed contour, without modular
   * arithmetic: the first point's previous point is the last one and the
   * last point's next point the first.
   */
  lemma ClosedNeighbors(p: PathValue, i: int)
    requires Wf(p) && 0 <= i < |p.pointTypes|
    requires p.contourInfo[ContourIndexOf(p, i).value].isClosed
    ensures var c := ContourIndexOf(p, i).value;
            var start := ContourStart(p.contourInfo, c);
            var last := p.contourInfo[c].endPoint;
            var nb := NeighborPoints(p, i).value;
            && nb.prevIndex == Some(if i == start then last else i - 1)
            && nb.nextIndex == Some(if i == last then start else i + 1)
  {
    var start, last, isClosed := NeighborContour(p, i);
  }

  /** The neighbours of a point of an open contour: none before the first point and none after the last. */
  lemma OpenNeighbors(p: PathValue, i: int)
    requires Wf(p) && 0 <= i < |p.pointTypes|
    requires !p.contourInfo[ContourIndexOf(p, i).value].isClosed
    ensures var c := ContourIndexOf(p, i).value;
            var start := ContourStart(p.contourInfo, c);
            var last := p.contourInfo[c].endPoint;
            var nb := NeighborPoints(p, i).value;
            && nb.prevIndex == (if i == start then None else Some(i - 1))
            && nb.nextIndex == (if i == last then None else Some(i + 1))
  {
    var start, last, isClosed := NeighborContour(p, i);
  }

  /** A neighbour's point is the path's point at the neighbour's index, and a missing neighbour has none. */
  lemma NeighborPointsAt(p: PathValue, i: int)
    requires Wf(p) && 0 <= i < |p.pointTypes|
    ensures var nb := NeighborPoints(p, i).value;
            && (nb.prevIndex.Some? ==> nb.prevIndex.value < |p.pointTypes| && nb.prevPoint == GetPointValue(p, nb.prevIndex.value))
            && (nb.nextIndex.Some? ==> nb.nextIndex.value < |p.pointTypes| && nb.nextPoint == GetPointValue(p, nb.nextIndex.value))
            && (nb.prevIndex.Some? <==> nb.prevPoint.Some?)
            && (nb.nextIndex.Some? <==> nb.nextPoint.Some?)
  {
    var start, last, isClosed := NeighborContour(p, i);
  }

  /** A neighbour lies in the same contour as the point. */
  lemma NeighborsInContour(p: PathValue, i: int)
    requires Wf(p) && 0 <= i < |p.pointTypes|
    ensures var c := ContourIndexOf(p, i);
            var nb := NeighborPoints(p, i).value;
            && (nb.prevIndex.Some? ==> ContourIndexOf(p, nb.prevIndex.value) == c)
            && (nb.nextIndex.Some? ==> ContourIndexOf(p, nb.nextIndex.value) == c)
  {
    var c := ContourIndexOf(p, i).value;
    var start, last, isClosed := NeighborContour(p, i);
    var nb := NeighborPoints(p, i).value;
    if nb.prevIndex.Some? {
      var d := ContourIndexOf(p, nb.prevIndex.value).value;
      ContainingContourUnique(p, c, d, nb.prevIndex.value);
    }
    if nb.nextIndex.Some? {
      var d := ContourIndexOf(p, nb.nextIndex.value).value;
      ContainingContourUnique(p, c, d, nb.nextIndex.value);
    }
  }

  /** The previous point of a point's next point is the point itself. */
  lemma NeighborsMutual(p: PathValue, i: int)
    requires Wf(p) && 0 <= i < |p.pointTypes|
    ensures var nb := NeighborPoints(p, i).value;
            nb.nextIndex.Some? ==> && nb.nextIndex.value < |p.pointTypes|
                                   && NeighborPoints(p, nb.nextIndex.value).value.prevIndex == Some(i)
  {
    var nb := NeighborPoints(p, i).value;
    var start, last, isClosed := NeighborContour(p, i);
    if nb.nextIndex.Some? {
      var m := nb.nextIndex.value;
      NeighborsInContour(p, i);
      if isClosed {
        ClosedNeighbors(p, i);
        ClosedNeighbors(p, m);
      } else {
        OpenNeighbors(p, i);
        OpenNeighbors(p, m);
      }
    }
  }

  //
  // handlePointsDoubleClick: the smooth toggle
  //

  /** A neighbour with a truthy `type`, that is, an off-curve point. */
  predicate IsOffCurvePoint(pt: Option<Point>) {
    pt.Some? && pt.value.pointType.Some?
  }

  /** A corner point becomes smooth only between two neighbours of which at least one is off-curve. */
  predicate CanSmooth(nb: Neighbors) {
    nb.prevPoint.Some? && nb.nextPoint.Some? && (IsOffCurvePoint(nb.prevPoint) || IsOffCurvePoint(nb.nextPoint))
  }

  /** Neighbour indices inside a path of `n` points, present exactly when their point is. */
  predicate NeighborsWithin(nb: Neighbors, n: nat) {
    && (nb.prevIndex.Some? <==> nb.prevPoint.Some?) && (nb.prevIndex.Some? ==> nb.prevIndex.value < n)
    && (nb.nextIndex.Some? <==> nb.nextPoint.Some?) && (nb.nextIndex.Some? ==> nb.nextIndex.value < n)
  }

  /**
   * The handle positions `alignHandles` computes for both handles (from
   * the incoming handle, the anchor and the outgoing handle) and
   * `alignHandle` computes for one (from the opposite neighbour, the anchor
   * and the handle). They are floating-point geometry with rounding, so
   * the model takes them as parameters.
   */
  datatype Aligner = Aligner(handles: (Point, Point, Point) -> (Vec, Vec), handle: (Point, Point, Point) -> Vec)

  /** The position of point `j`. */
  function PositionOf(p: PathValue, j: nat): Vec
    requires |p.coordinates| == 2 * |p.pointTypes| && j < |p.pointTypes|
  {
    Vec(p.coordinates[2 * j], p.coordinates[2 * j + 1])
  }

  /** `setPointPosition` on a path value: point `j` moves to `v`, every other point stays. */
  function SetPosition(p: PathValue, j: nat, v: Vec): (q: PathValue)
    requires Wf(p) && j < |p.pointTypes|
    ensures Wf(q) && q.pointTypes == p.pointTypes && q.contourInfo == p.contourInfo
    ensures PositionOf(q, j) == v
    ensures forall m :: 0 <= m < |p.pointTypes| && m != j ==> PositionOf(q, m) == PositionOf(p, m)
  {
    p.(coordinates := p.coordinates[2 * j := v.x][2 * j + 1 := v.y])
  }

  /**
   * The handle fix-up after point `i` turned smooth: the off-curve
   * neighbours move to the aligned positions, the incoming one first.
   */
  function AlignNeighbors(p: PathValue, i: nat, nb: Neighbors, align: Aligner): (q: PathValue)
    requires Wf(p) && i < |p.pointTypes| && NeighborsWithin(nb, |p.pointTypes|) && CanSmooth(nb)
    ensures Wf(q) && q.pointTypes == p.pointTypes && q.contourInfo == p.contourInfo
    ensures forall j :: 0 <= j < |p.pointTypes| && PositionOf(q, j) != PositionOf(p, j) ==>
              (Some(j) == nb.prevIndex && IsOffCurvePoint(nb.prevPoint)) || (Some(j) == nb.nextIndex && IsOffCurvePoint(nb.nextPoint))
  {
    var anchor := GetPointValue(p, i).value;
    if IsOffCurvePoint(nb.prevPoint) && IsOffCurvePoint(nb.nextPoint) then
      var (newPrev, newNext) := align.handles(nb.prevPoint.value, anchor, nb.nextPoint.value);
      SetPosition(SetPosition(p, nb.prevIndex.value, newPrev), nb.nextIndex.value, newNext)
    else if IsOffCurvePoint(nb.prevPoint) then
      SetPosition(p, nb.prevIndex.value, align.handle(nb.nextPoint.value, anchor, nb.prevPoint.value))
    else
      SetPosition(p, nb.nextIndex.value, align.handle(nb.prevPoint.value, anchor, nb.nextPoint.value))
  }

  /**
   * One point of a double click: a smooth point (raw type 8) becomes a
   * corner (0); a corner becomes smooth when `CanSmooth`, and its
   * off-curve neighbours are then aligned; any other raw type, off-curve
   * or flagged off-curve, is left alone.
   */
  function ToggleOne(p: PathValue, pointIndex: int, align: Aligner): (r: Result<PathValue, PathError>)
    requires Wf(p)
    ensures r.Err? <==> !(0 <= pointIndex < |p.pointTypes|)
    ensures r.Ok? ==> Wf(r.value)
  {
    match NeighborPoints(p, pointIndex)
    case Err(e) => Err(e)
    case Ok(nb) =>
      NeighborPointsAt(p, pointIndex);
      var t := p.pointTypes[pointIndex];
      if !CanSmooth(nb) && t != SMOOTH_FLAG then Ok(p)
      else if t == ON_CURVE then Ok(AlignNeighbors(p.(pointTypes := p.pointTypes[pointIndex := SMOOTH_FLAG]), pointIndex, nb, align))
      else if t == SMOOTH_FLAG then Ok(p.(pointTypes := p.pointTypes[pointIndex := ON_CURVE]))
      else Ok(p)
  }

  /**
   * What a toggle changes: the raw type of the clicked point, only
   * between corner and smooth; the contours stay; and a point moves only
   * when it is an off-curve neighbour of a corner that turned smooth.
   */
  lemma ToggleOneChanges(p: PathValue, i: int, align: Aligner)
    requires Wf(p) && 0 <= i < |p.pointTypes|
    ensures var q := ToggleOne(p, i, align).value;
            var t := p.pointTypes[i];
            var nb := NeighborPoints(p, i).value;
            && q.contourInfo == p.contourInfo && |q.pointTypes| == |p.pointTypes|
            && (forall j :: 0 <= j < |p.pointTypes| && j != i ==> q.pointTypes[j] == p.pointTypes[j])
            && (t == SMOOTH_FLAG ==> q.pointTypes[i] == ON_CURVE)
            && (t == ON_CURVE ==> (q.pointTypes[i] == SMOOTH_FLAG <==> CanSmooth(nb)))
            && (t != ON_CURVE ==> t != SMOOTH_FLAG ==> q.pointTypes[i] == t)
            && (q.pointTypes[i] != t ==> {t, q.pointTypes[i]} == {ON_CURVE, SMOOTH_FLAG})
            && (forall j :: 0 <= j < |p.pointTypes| && PositionOf(q, j) != PositionOf(p, j) ==>
                  && t == ON_CURVE && q.pointTypes[i] == SMOOTH_FLAG && j != i
                  && MaskedType(p.pointTypes[j]) != ON_CURVE
                  && (Some(j) == nb.prevIndex || Some(j) == nb.nextIndex))
  {
    NeighborPointsAt(p, i);
    var nb := NeighborPoints(p, i).value;
    var t := p.pointTypes[i];
    if t == ON_CURVE && CanSmooth(nb) {
      var p1 := p.(pointTypes := p.pointTypes[i := SMOOTH_FLAG]);
      var q := AlignNeighbors(p1, i, nb, align);
      forall j | 0 <= j < |p.pointTypes| && PositionOf(q, j) != PositionOf(p, j)
        ensures j != i && MaskedType(p.pointTypes[j]) != ON_CURVE
      {
        assert PositionOf(p1, j) == PositionOf(p, j);
        if Some(j) == nb.prevIndex && IsOffCurvePoint(nb.prevPoint) {
          assert GetPointValue(p, j) == nb.prevPoint;
        } else {
          assert GetPointValue(p, j) == nb.nextPoint;
        }
      }
    }
  }

  /** Corner and smooth are both on-curve: a toggle keeps every masked type. */
  lemma ToggleOneKeepsMaskedTypes(p: PathValue, i: int, align: Aligner)
    requires Wf(p) && 0 <= i < |p.pointTypes|
    ensures MaskedTypesEqual(ToggleOne(p, i, align).value.pointTypes, p.pointTypes)
  {
    ToggleOneChanges(p, i, align);
    assert MaskedType(SMOOTH_FLAG) == MaskedType(ON_CURVE);
  }

  /**
   * Two paths with the same contours and the same masked point types give
   * every point the same neighbour indices and the same smooth eligibility.
   */
  lemma NeighborsOfSameShape(p1: PathValue, p2: PathValue, i: int)
    requires Wf(p1) && Wf(p2) && 0 <= i < |p1.pointTypes|
    requires p1.contourInfo == p2.contourInfo && MaskedTypesEqual(p1.pointTypes, p2.pointTypes)
    ensures var nb1 := NeighborPoints(p1, i).value;
            var nb2 := NeighborPoints(p2, i).value;
            nb1.prevIndex == nb2.prevIndex && nb1.nextIndex == nb2.nextIndex && CanSmooth(nb1) == CanSmooth(nb2)
  {
    var start1, last1, closed1 := NeighborContour(p1, i);
    var start2, last2, closed2 := NeighborContour(p2, i);
    var nb1 := NeighborPoints(p1, i).value;
    var nb2 := NeighborPoints(p2, i).value;
    assert nb1.prevIndex == nb2.prevIndex && nb1.nextIndex == nb2.nextIndex;
    NeighborPointsAt(p1, i);
    NeighborPointsAt(p2, i);
    if nb1.prevIndex.Some? {
      OffCurveOfSameShape(p1, p2, nb1.prevIndex.value);
    }
    if nb1.nextIndex.Some? {
      OffCurveOfSameShape(p1, p2, nb1.nextIndex.value);
    }
  }

  lemma OffCurveOfSameShape(p1: PathValue, p2: PathValue, j: nat)
    requires Wf(p1) && Wf(p2) && j < |p1.pointTypes| && MaskedTypesEqual(p1.pointTypes, p2.pointTypes)
    ensures IsOffCurvePoint(GetPointValue(p1, j)) == IsOffCurvePoint(GetPointValue(p2, j))
  {
    assert MaskedType(p1.pointTypes[j]) == MaskedType(p2.pointTypes[j]);
  }

  /**
   * Whether a point toggles depends on the point types and contours
   * only, not on the coordinates the handle alignment moves.
   */
  lemma ToggleOneTypes(p1: PathValue, p2: PathValue, i: int, align1: Aligner, align2: Aligner)
    requires Wf(p1) && Wf(p2) && 0 <= i < |p1.pointTypes|
    requires p1.pointTypes == p2.pointTypes && p1.contourInfo == p2.contourInfo
    ensures ToggleOne(p1, i, align1).value.pointTypes == ToggleOne(p2, i, align2).value.pointTypes
  {
    NeighborsOfSameShape(p1, p2, i);
  }

  /** Two double clicks on a point that can be smooth restore its point type (and every other one). */
  lemma ToggleTwice(p: PathValue, i: int, align: Aligner)
    requires Wf(p) && 0 <= i < |p.pointTypes|
    requires p.pointTypes[i] == ON_CURVE || p.pointTypes[i] == SMOOTH_FLAG
    requires CanSmooth(NeighborPoints(p, i).value)
    ensures ToggleOne(ToggleOne(p, i, align).value, i, align).value.pointTypes == p.pointTypes
  {
    var q := ToggleOne(p, i, align).value;
    ToggleOneChanges(p, i, align);
    ToggleOneKeepsMaskedTypes(p, i, align);
    NeighborsOfSameShape(p, q, i);
    ToggleOneChanges(q, i, align);
    var r := ToggleOne(q, i, align).value;
    assert r.pointTypes == p.pointTypes by {
      forall j | 0 <= j < |p.pointTypes|
        ensures r.pointTypes[j] == p.pointTypes[j]
      {
      }
    }
  }

  /** The whole double click: each point in turn, on the path as the earlier ones left it; a bad index stops it. */
  function ToggleAll(p: PathValue, pointIndices: seq<int>, align: Aligner): (r: (PathValue, Outcome<PathError>))
    requires Wf(p)
    ensures Wf(r.0)
    decreases |pointIndices|
  {
    if |pointIndices| == 0 then (p, Pass)
    else
      match ToggleOne(p, pointIndices[0], align)
      case Err(e) => (p, Fail(e))
      case Ok(q) => ToggleAll(q, pointIndices[1..], align)
  }

  /** Every index addresses a point of a path of `n` points. */
  predicate AllInside(pointIndices: seq<int>, n: nat) {
    forall k :: 0 <= k < |pointIndices| ==> 0 <= pointIndices[k] < n
  }

  /** Entry `k` is the first index that addresses no point. */
  predicate FirstOutside(pointIndices: seq<int>, n: nat, k: nat) {
    k < |pointIndices| && !(0 <= pointIndices[k] < n) && AllInside(pointIndices[..k], n)
  }

  lemma InsideCons(pointIndices: seq<int>, n: nat)
    requires |pointIndices| > 0 && 0 <= pointIndices[0] < n
    ensures AllInside(pointIndices, n) <==> AllInside(pointIndices[1..], n)
    ensures forall k: nat :: FirstOutside(pointIndices[1..], n, k) ==> FirstOutside(pointIndices, n, k + 1)
  {
    forall k: nat | FirstOutside(pointIndices[1..], n, k)
      ensures FirstOutside(pointIndices, n, k + 1)
    {
      assert pointIndices[..k + 1] == [pointIndices[0]] + pointIndices[1..][..k];
    }
    if AllInside(pointIndices[1..], n) {
      forall k | 0 <= k < |pointIndices|
        ensures 0 <= pointIndices[k] < n
      {
        if k > 0 {
          assert pointIndices[k] == pointIndices[1..][k - 1];
        }
      }
    }
  }

  /**
   * The double click keeps the contours, the number of points and every
   * masked point type; it succeeds exactly when every index addresses a
   * point, and otherwise fails with the first index that does not.
   */
  lemma {:induction false} ToggleAllKeeps(p: PathValue, pointIndices: seq<int>, align: Aligner)
    requires Wf(p)
    ensures var (q, o) := ToggleAll(p, pointIndices, align);
            && q.contourInfo == p.contourInfo && |q.pointTypes| == |p.pointTypes|
            && MaskedTypesEqual(q.pointTypes, p.pointTypes)
            && (o.Pass? <==> AllInside(pointIndices, |p.pointTypes|))
            && (o.Fail? ==> exists k: nat :: FirstOutside(pointIndices, |p.pointTypes|, k) && o.error == PointIndexOutOfBounds(pointIndices[k]))
    decreases |pointIndices|
  {
    var n := |p.pointTypes|;
    if |pointIndices| > 0 {
      var i := pointIndices[0];
      if 0 <= i < n {
        var q := ToggleOne(p, i, align).value;
        ToggleOneKeepsMaskedTypes(p, i, align);
        ToggleOneChanges(p, i, align);
        ToggleAllKeeps(q, pointIndices[1..], align);
        InsideCons(pointIndices, n);
        var o := ToggleAll(q, pointIndices[1..], align).1;
        if o.Fail? {
          var k: nat :| FirstOutside(pointIndices[1..], n, k) && o.error == PointIndexOutOfBounds(pointIndices[1..][k]);
          assert FirstOutside(pointIndices, n, k + 1);
        }
      } else {
        assert FirstOutside(pointIndices, n, 0);
      }
    }
  }

  /**
   * The point types a double click leaves, and whether it fails, do not
   * depend on the handle alignment or on the coordinates.
   */
  lemma {:induction false} ToggleAllTypes(p1: PathValue, p2: PathValue, pointIndices: seq<int>, align1: Aligner, align2: Aligner)
    requires Wf(p1) && Wf(p2)
    requires p1.pointTypes == p2.pointTypes && p1.contourInfo == p2.contourInfo
    ensures ToggleAll(p1, pointIndices, align1).0.pointTypes == ToggleAll(p2, pointIndices, align2).0.pointTypes
    ensures ToggleAll(p1, pointIndices, align1).1 == ToggleAll(p2, pointIndices, align2).1
    decreases |pointIndices|
  {
    if |pointIndices| > 0 && 0 <= pointIndices[0] < |p1.pointTypes| {
      var i := pointIndices[0];
      ToggleOneTypes(p1, p2, i, align1, align2);
      ToggleOneChanges(p1, i, align1);
      ToggleOneChanges(p2, i, align2);
      ToggleAllTypes(ToggleOne(p1, i, align1).value, ToggleOne(p2, i, align2).value, pointIndices[1..], align1, align2);
    }
  }

  /** The handle fix-up of `handlePointsDoubleClick`, on the path's coordinate list. */
  method AlignHandlesInPlace(path: VarPackedPath, pointIndex: nat, nb: Neighbors, align: Aligner)
    requires path.Valid() && pointIndex < |path.pointTypes.items|
    requires NeighborsWithin(nb, |path.pointTypes.items|) && CanSmooth(nb)
    modifies path.coordinates
    ensures path.Valid()
    ensures path.Value() == AlignNeighbors(old(path.Value()), pointIndex, nb, align)
  {
    ghost var p1 := path.Value();
    var anchorPoint := path.GetPoint(pointIndex).value;
    assert anchorPoint == GetPointValue(p1, pointIndex).value;
    if IsOffCurvePoint(nb.prevPoint) && IsOffCurvePoint(nb.nextPoint) {
      var (newPrevPoint, newNextPoint) := align.handles(nb.prevPoint.value, anchorPoint, nb.nextPoint.value);
      path.SetPointPosition(nb.prevIndex.value, newPrevPoint.x, newPrevPoint.y);
      ghost var p2 := path.Value();
      assert p2 == SetPosition(p1, nb.prevIndex.value, newPrevPoint);
      path.SetPointPosition(nb.nextIndex.value, newNextPoint.x, newNextPoint.y);
      assert path.Value() == SetPosition(p2, nb.nextIndex.value, newNextPoint);
    } else if IsOffCurvePoint(nb.prevPoint) {
      var newPrevPoint := align.handle(nb.nextPoint.value, anchorPoint, nb.prevPoint.value);
      path.SetPointPosition(nb.prevIndex.value, newPrevPoint.x, newPrevPoint.y);
      assert path.Value() == SetPosition(p1, nb.prevIndex.value, newPrevPoint);
    } else {
      var newNextPoint := align.handle(nb.prevPoint.value, anchorPoint, nb.nextPoint.value);
      path.SetPointPosition(nb.nextIndex.value, newNextPoint.x, newNextPoint.y);
      assert path.Value() == SetPosition(p1, nb.nextIndex.value, newNextPoint);
    }
  }

  /**
   * `handlePointsDoubleClick`: each raw type is rewritten in place in the
   * path's point type list, and the handles next to a new smooth point
   * are moved in the coordinate list.
   */
  method HandlePointsDoubleClick(path: VarPackedPath, pointIndices: seq<int>, align: Aligner) returns (r: Outcome<PathError>)
    requires path.Valid()
    modifies path.pointTypes, path.coordinates
    ensures path.Valid()
    ensures (path.Value(), r) == ToggleAll(old(path.Value()), pointIndices, align)
  {
    var k := 0;
    while k < |pointIndices|
      invariant 0 <= k <= |pointIndices| && path.Valid()
      invariant ToggleAll(old(path.Value()), pointIndices, align) == ToggleAll(path.Value(), pointIndices[k..], align)
    {
      var pointIndex := pointIndices[k];
      assert pointIndices[k..][1..] == pointIndices[k + 1..];
      ghost var p := path.Value();
      var nb := NeighborPoints(path.Value(), pointIndex);
      if nb.Err? {
        return Fail(nb.error);
      }
      NeighborPointsAt(p, pointIndex);
      var pointType := path.pointTypes.items[pointIndex];
      if !CanSmooth(nb.value) && pointType != SMOOTH_FLAG {
        assert ToggleOne(p, pointIndex, align) == Ok(p);
        k := k + 1;
        continue;
      }
      if pointType == ON_CURVE || pointType == SMOOTH_FLAG {
        var newPointType := if pointType == ON_CURVE then SMOOTH_FLAG else ON_CURVE;
        path.pointTypes.items := path.pointTypes.items[pointIndex := newPointType];
        ghost var p1 := path.Value();
        assert p1 == p.(pointTypes := p.pointTypes[pointIndex := newPointType]);
        if newPointType == SMOOTH_FLAG {
          AlignHandlesInPlace(path, pointIndex, nb.value, align);
        }
      }
      assert path.Value() == ToggleOne(p, pointIndex, align).value;
      k := k + 1;
    }
    assert pointIndices[k..] == [];
    r := Pass;
  }

  //
  // handleDoubleClick on a contour
  //

  /**
   * Double-clicking a contour selects the points of that contour whose
   * masked type is on-curve; a contour index that does not address a
   * point raises from `getAbsolutePointIndex`.
   */
  method ContourOnCurveSelection(path: VarPackedPath, contourIndex: int) returns (r: Result<set<nat>, PathError>)
    requires path.Valid()
    ensures r.Err? <==> AbsolutePointIndex(path.Value(), contourIndex, 0, false).Err?
    ensures r.Ok? ==> 0 <= contourIndex < |path.contourInfo.items|
    ensures r.Ok? ==> var k := Contours(path.Value())[contourIndex];
                      var start := ContourStart(path.contourInfo.items, contourIndex);
                      forall i :: i in r.value <==>
                        start <= i < start + |k.pointTypes| && MaskedType(k.pointTypes[i - start]) == ON_CURVE
  {
    var p := path.Value();
    var s := AbsolutePointIndex(p, contourIndex, 0, false);
    if s.Err? {
      return Err(s.error);
    }
    var startPoint := s.value;
    var endPoint := path.contourInfo.items[contourIndex].endPoint;
    ContourBounds(p, contourIndex);
    ghost var k := Contours(p)[contourIndex];
    var newSelection: set<nat> := {};
    var i := startPoint;
    while i < endPoint + 1
      invariant startPoint <= i <= endPoint + 1
      invariant forall m :: m in newSelection <==>
                  startPoint <= m < i && MaskedType(k.pointTypes[m - startPoint]) == ON_CURVE
    {
      var pointType := MaskedType(path.pointTypes.items[i]);
      if pointType == ON_CURVE {
        newSelection := newSelection + {i};
      }
      i := i + 1;
    }
    r := Ok(newSelection);
  }
}
