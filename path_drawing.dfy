/**
 * Drawing a packed path into a canvas-like target, and cutting a contour
 * into segments.
 *
 * The target is modelled by the list of calls it receives. A contour is
 * walked from its first on-curve point (wrapping around for a closed
 * contour); every on-curve point ends a segment whose kind is set by the
 * last off-curve point before it. A contour without on-curve points (a
 * "quad blob") is drawn through an implied on-curve point halfway between
 * its last and first points.
 */
module PathDrawing {
  import opened Base
  import opened PathData

  /** A point handed to the drawing target; `NotANumber` stands for a coordinate pair that evaluates to `NaN`. */
  datatype Position = At(x: real, y: real) | NotANumber

  function Midpoint(a: Position, b: Position): (m: Position)
    ensures m.At? <==> a.At? && b.At?
    ensures m.At? ==> a.x + b.x == 2.0 * m.x && a.y + b.y == 2.0 * m.y
  {
    if a.At? && b.At? then At((a.x + b.x) / 2.0, (a.y + b.y) / 2.0) else NotANumber
  }

  /** A call on the drawing target; the last position of each is the pen's new position. */
  datatype DrawOp =
    | MoveTo(p: Position)
    | LineTo(p: Position)
    | QuadraticCurveTo(c: Position, p: Position)
    | BezierCurveTo(c1: Position, c2: Position, p: Position)
    | ClosePath

  /** A call that extends the current sub-path. */
  predicate IsSegmentOp(op: DrawOp) {
    op.LineTo? || op.QuadraticCurveTo? || op.BezierCurveTo?
  }

  datatype SegmentType = Line | Quad | Cubic | QuadBlob

  /** The positions of interleaved coordinates. */
  function PositionsOf(coordinates: seq<real>): seq<Position> {
    seq(|coordinates| / 2, i requires 0 <= i < |coordinates| / 2 => At(coordinates[2 * i], coordinates[2 * i + 1]))
  }

  //
  // Segment drawers
  //

  /**
   * What `drawQuadSegment` emits for off-curve points followed by their
   * on-curve point: one quadratic curve per off-curve point, each ending
   * halfway to the next off-curve point, the last at the on-curve point.
   */
  function QuadSegmentOps(seg: seq<Position>): seq<DrawOp>
    requires |seg| >= 1
    decreases |seg|
  {
    if |seg| <= 2 then [QuadraticCurveTo(seg[0], seg[|seg| - 1])]
    else [QuadraticCurveTo(seg[0], Midpoint(seg[0], seg[1]))] + QuadSegmentOps(seg[1..])
  }

  /** How many calls `drawQuadSegment` makes: one per off-curve point. */
  function QuadCount(seg: seq<Position>): nat {
    if |seg| <= 2 then 1 else |seg| - 1
  }

  /** Call `k` of `drawQuadSegment`: from off-curve point `k` to the implied point after it, or to the on-curve point. */
  function QuadSegmentOpAt(seg: seq<Position>, k: nat): DrawOp
    requires |seg| >= 1 && k < QuadCount(seg)
  {
    QuadraticCurveTo(seg[k], if k == QuadCount(seg) - 1 then seg[|seg| - 1] else Midpoint(seg[k], seg[k + 1]))
  }

  /** The closed form of `QuadSegmentOps`: the implied on-curve points are the midpoints of consecutive off-curve points. */
  lemma {:induction false} QuadSegmentOpsAt(seg: seq<Position>)
    requires |seg| >= 1
    ensures |QuadSegmentOps(seg)| == QuadCount(seg)
    ensures forall k :: 0 <= k < QuadCount(seg) ==> QuadSegmentOps(seg)[k] == QuadSegmentOpAt(seg, k)
    decreases |seg|
  {
    if |seg| > 2 {
      var tail := seg[1..];
      QuadSegmentOpsAt(tail);
      var ops := QuadSegmentOps(seg);
      assert ops == [QuadraticCurveTo(seg[0], Midpoint(seg[0], seg[1]))] + QuadSegmentOps(tail);
      forall k | 1 <= k < QuadCount(seg) ensures ops[k] == QuadSegmentOpAt(seg, k) {
        assert ops[k] == QuadSegmentOpAt(tail, k - 1);
      }
    }
  }

  /** `drawQuadSegment`. */
  method DrawQuadSegment(seg: seq<Position>) returns (ops: seq<DrawOp>)
    requires |seg| >= 1
    ensures ops == QuadSegmentOps(seg)
  {
    ops := [];
    var p1 := seg[0];
    var i := 1;
    while i < |seg| - 1
      invariant 1 <= i <= QuadCount(seg)
      invariant p1 == seg[i - 1]
      invariant |ops| == i - 1
      invariant forall k :: 0 <= k < i - 1 ==> ops[k] == QuadSegmentOpAt(seg, k)
    {
      var p2 := seg[i];
      ops := ops + [QuadraticCurveTo(p1, Midpoint(p1, p2))];
      p1 := p2;
      i := i + 1;
    }
    ops := ops + [QuadraticCurveTo(p1, seg[|seg| - 1])];
    QuadSegmentOpsAt(seg);
  }

  /**
   * `drawCubicSegment`: one off-curve point falls back to a quadratic
   * curve; of three or more only the first and the last are used.
   */
  function CubicSegmentOp(seg: seq<Position>): (op: DrawOp)
    requires |seg| >= 1
    ensures !op.ClosePath? && op.p == seg[|seg| - 1]
    ensures |seg| >= 3 ==> op == BezierCurveTo(seg[0], seg[|seg| - 2], seg[|seg| - 1])
  {
    if |seg| == 2 then QuadraticCurveTo(seg[0], seg[1])
    else if |seg| == 3 then BezierCurveTo(seg[0], seg[1], seg[2])
    else if |seg| >= 4 then BezierCurveTo(seg[0], seg[|seg| - 2], seg[|seg| - 1])
    else LineTo(seg[|seg| - 1])
  }

  /** The calls a segment function emits for a segment's points (its start point excluded). */
  function SegmentOps(kind: SegmentType, seg: seq<Position>): seq<DrawOp>
    requires |seg| >= 1 && kind != QuadBlob
  {
    match kind
    case Line => [LineTo(seg[0])]
    case Quad => QuadSegmentOps(seg)
    case Cubic => [CubicSegmentOp(seg)]
  }

  /** Every segment is drawn by curve or line calls only, and it ends at its last point. */
  lemma SegmentOpsShape(kind: SegmentType, seg: seq<Position>)
    requires |seg| >= 1 && kind != QuadBlob
    requires kind == Line ==> |seg| == 1
    ensures |SegmentOps(kind, seg)| >= 1
    ensures forall k :: 0 <= k < |SegmentOps(kind, seg)| ==> IsSegmentOp(SegmentOps(kind, seg)[k])
    ensures !SegmentOps(kind, seg)[|SegmentOps(kind, seg)| - 1].ClosePath?
    ensures SegmentOps(kind, seg)[|SegmentOps(kind, seg)| - 1].p == seg[|seg| - 1]
  {
    var ops := SegmentOps(kind, seg);
    match kind {
      case Line =>
      case Cubic =>
      case Quad =>
        QuadSegmentOpsAt(seg);
        forall k | 0 <= k < |ops| ensures ops[k].QuadraticCurveTo? {
          assert ops[k] == QuadSegmentOpAt(seg, k);
        }
        assert ops[|ops| - 1] == QuadSegmentOpAt(seg, |ops| - 1);
    }
  }

  /** A segment function as a method: `drawLineSegment`, `drawQuadSegment` or `drawCubicSegment`. */
  method DrawSegment(kind: SegmentType, seg: seq<Position>) returns (ops: seq<DrawOp>)
    requires |seg| >= 1 && kind != QuadBlob
    ensures ops == SegmentOps(kind, seg)
  {
    match kind {
      case Line => ops := [LineTo(seg[0])];
      case Quad => ops := DrawQuadSegment(seg);
      case Cubic => ops := [CubicSegmentOp(seg)];
    }
  }

  //
  // The contour walk
  //

  /**
   * The arguments of `drawContourToPath` and of the segment iterator:
   * `numPoints` points from `startPoint`, walked from `firstOnCurve`.
   */
  datatype Walk = Walk(points: seq<Position>, pointTypes: seq<int>, startPoint: nat, numPoints: nat,
                       firstOnCurve: nat, isClosed: bool)

  predicate ValidWalk(w: Walk) {
    w.firstOnCurve < w.numPoints && w.startPoint + w.numPoints <= |w.pointTypes|
  }

  predicate HasPositions(w: Walk) {
    w.startPoint + w.numPoints <= |w.points|
  }

  /** The last walk position: a closed walk returns to its first point. */
  function LastIndex(w: Walk): nat
    requires ValidWalk(w)
  {
    if w.isClosed then w.numPoints else w.numPoints - 1 - w.firstOnCurve
  }

  /** The absolute point index at walk position `i`. */
  function WalkIndex(w: Walk, i: nat): (r: nat)
    requires ValidWalk(w) && i <= LastIndex(w)
    ensures w.startPoint <= r < w.startPoint + w.numPoints
    ensures i == 0 ==> r == w.startPoint + w.firstOnCurve
    ensures w.isClosed && i == LastIndex(w) ==> r == w.startPoint + w.firstOnCurve
  {
    if w.isClosed && w.firstOnCurve + i >= w.numPoints then w.startPoint + w.firstOnCurve + i - w.numPoints
    else w.startPoint + w.firstOnCurve + i
  }

  /** The source computes the wrapped position with `%`; below `2 * n` that is one subtraction. */
  lemma WrapIndex(x: nat, n: nat)
    requires 0 < n && x < 2 * n
    ensures x % n == if x >= n then x - n else x
  {
  }

  /** The point index at walk position `i`, computed as both walks of the source compute it. */
  function PointIndexAt(w: Walk, i: nat): (r: nat)
    requires ValidWalk(w) && i <= LastIndex(w)
    ensures r == WalkIndex(w, i)
  {
    if w.isClosed then
      WrapIndex(w.firstOnCurve + i, w.numPoints);
      w.startPoint + (w.firstOnCurve + i) % w.numPoints
    else w.startPoint + w.firstOnCurve + i
  }

  function WalkType(w: Walk, i: nat): int
    requires ValidWalk(w) && i <= LastIndex(w)
  {
    MaskedType(w.pointTypes[WalkIndex(w, i)])
  }

  function WalkPoint(w: Walk, i: nat): Position
    requires ValidWalk(w) && HasPositions(w) && i <= LastIndex(w)
  {
    w.points[WalkIndex(w, i)]
  }

  predicate IsLegalType(m: int) {
    m == ON_CURVE || m == OFF_CURVE_QUAD || m == OFF_CURVE_CUBIC
  }

  /** The first walk position in `1..i-1` whose point type is not a legal kind. */
  function FirstIllegal(w: Walk, i: nat): (r: Option<nat>)
    requires ValidWalk(w) && i <= LastIndex(w) + 1
    ensures r.Some? ==> 1 <= r.value < i && !IsLegalType(WalkType(w, r.value))
  {
    if i <= 1 then None
    else match FirstIllegal(w, i - 1)
      case Some(j) => Some(j)
      case None => if IsLegalType(WalkType(w, i - 1)) then None else Some(i - 1)
  }

  lemma {:induction false} FirstIllegalStable(w: Walk, i: nat, k: nat)
    requires ValidWalk(w) && i <= k <= LastIndex(w) + 1 && FirstIllegal(w, i).Some?
    ensures FirstIllegal(w, k) == FirstIllegal(w, i)
    decreases k - i
  {
    if i < k {
      FirstIllegalStable(w, i, k - 1);
    }
  }

  /**
   * Where the segment open before position `i` began: the last position
   * before `i` that holds an on-curve point, or the walk's first position.
   */
  function SegmentStart(w: Walk, i: nat): (a: nat)
    requires ValidWalk(w) && 1 <= i <= LastIndex(w) + 1
    ensures a < i && (a == 0 || WalkType(w, a) == ON_CURVE)
  {
    if i - 1 == 0 || WalkType(w, i - 1) == ON_CURVE then i - 1 else SegmentStart(w, i - 1)
  }

  /** The kind of the segment that reaches position `j` from position `a`: the type of its last off-curve point. */
  function SegmentKind(w: Walk, a: nat, j: nat): (kind: SegmentType)
    requires ValidWalk(w) && a < j <= LastIndex(w) + 1
    ensures kind != QuadBlob
  {
    if j == a + 1 then Line else if WalkType(w, j - 1) == OFF_CURVE_QUAD then Quad else Cubic
  }

  /** The points at walk positions `a+1..j`. */
  function SegmentPoints(w: Walk, a: nat, j: nat): (seg: seq<Position>)
    requires ValidWalk(w) && HasPositions(w) && a <= j <= LastIndex(w)
    ensures |seg| == j - a
    decreases j
  {
    if j == a then [] else SegmentPoints(w, a, j - 1) + [WalkPoint(w, j)]
  }

  /** The calls for the segment that the on-curve point at position `j` ends. */
  function SegmentOpsAt(w: Walk, j: nat): seq<DrawOp>
    requires ValidWalk(w) && HasPositions(w) && 1 <= j <= LastIndex(w)
  {
    var a := SegmentStart(w, j);
    SegmentOps(SegmentKind(w, a, j), SegmentPoints(w, a, j))
  }

  /** The calls for every segment that ends at a position in `1..i-1`. */
  function OpsBefore(w: Walk, i: nat): seq<DrawOp>
    requires ValidWalk(w) && HasPositions(w) && i <= LastIndex(w) + 1
  {
    if i <= 1 then []
    else OpsBefore(w, i - 1) + (if WalkType(w, i - 1) == ON_CURVE then SegmentOpsAt(w, i - 1) else [])
  }

  /**
   * What `drawContourToPath` hands to the target, and whether it returns
   * normally: a move to the first point, the segments, and a close for a
   * closed contour; an illegal point type stops the walk with the calls
   * made so far already received.
   */
  function WalkOps(w: Walk): (seq<DrawOp>, bool)
    requires ValidWalk(w) && HasPositions(w)
  {
    match FirstIllegal(w, LastIndex(w) + 1)
    case Some(j) => ([MoveTo(WalkPoint(w, 0))] + OpsBefore(w, j), false)
    case None => ([MoveTo(WalkPoint(w, 0))] + OpsBefore(w, LastIndex(w) + 1) + (if w.isClosed then [ClosePath] else []), true)
  }

  lemma SegmentPointsSnoc(w: Walk, a: nat, j: nat)
    requires ValidWalk(w) && HasPositions(w) && a <= j < LastIndex(w)
    ensures SegmentPoints(w, a, j + 1) == SegmentPoints(w, a, j) + [WalkPoint(w, j + 1)]
  {
  }

  /**
   * The state of `drawContourToPath` before position `i`: every point type
   * so far legal, the calls made so far, and the open segment's points
   * (without its start point) and kind.
   */
  ghost predicate DrawnUpTo(w: Walk, i: nat, ops: seq<DrawOp>, segment: seq<Position>, kind: SegmentType)
    requires ValidWalk(w) && HasPositions(w) && 1 <= i <= LastIndex(w) + 1
  {
    && FirstIllegal(w, i) == None
    && ops == [MoveTo(WalkPoint(w, 0))] + OpsBefore(w, i)
    && segment == SegmentPoints(w, SegmentStart(w, i), i - 1)
    && kind == SegmentKind(w, SegmentStart(w, i), i)
  }

  lemma StepStart(w: Walk)
    requires ValidWalk(w) && HasPositions(w)
    ensures DrawnUpTo(w, 1, [MoveTo(WalkPoint(w, 0))], [], Line)
  {
    assert SegmentPoints(w, 0, 0) == [];
  }

  /** Passing an on-curve point closes the open segment and opens a new line segment there. */
  lemma StepOnCurve(w: Walk, i: nat, ops: seq<DrawOp>, segment: seq<Position>, kind: SegmentType)
    requires ValidWalk(w) && HasPositions(w) && 1 <= i <= LastIndex(w)
    requires DrawnUpTo(w, i, ops, segment, kind) && WalkType(w, i) == ON_CURVE
    ensures DrawnUpTo(w, i + 1, ops + SegmentOps(kind, segment + [WalkPoint(w, i)]), [], Line)
  {
    SegmentPointsSnoc(w, SegmentStart(w, i), i - 1);
    assert SegmentPoints(w, i, i) == [];
  }

  /** Passing an off-curve point of a legal kind extends the open segment and sets its kind. */
  lemma StepOffCurve(w: Walk, i: nat, ops: seq<DrawOp>, segment: seq<Position>, kind: SegmentType)
    requires ValidWalk(w) && HasPositions(w) && 1 <= i <= LastIndex(w)
    requires DrawnUpTo(w, i, ops, segment, kind)
    requires WalkType(w, i) == OFF_CURVE_QUAD || WalkType(w, i) == OFF_CURVE_CUBIC
    ensures DrawnUpTo(w, i + 1, ops, segment + [WalkPoint(w, i)], if WalkType(w, i) == OFF_CURVE_QUAD then Quad else Cubic)
  {
    SegmentPointsSnoc(w, SegmentStart(w, i), i - 1);
    var a := SegmentStart(w, i);
    assert SegmentStart(w, i + 1) == a;
    assert SegmentKind(w, a, i + 1) == if WalkType(w, i) == OFF_CURVE_QUAD then Quad else Cubic;
  }

  /** An illegal point type is the first illegal one when none came before it. */
  lemma StepIllegal(w: Walk, i: nat)
    requires ValidWalk(w) && 1 <= i <= LastIndex(w)
    requires FirstIllegal(w, i) == None && !IsLegalType(WalkType(w, i))
    ensures FirstIllegal(w, LastIndex(w) + 1) == Some(i)
  {
    assert FirstIllegal(w, i + 1) == Some(i);
    FirstIllegalStable(w, i + 1, LastIndex(w) + 1);
  }

  /** A walk that passes every position ends with a close if the contour is closed. */
  lemma StepFinish(w: Walk, ops: seq<DrawOp>, segment: seq<Position>, kind: SegmentType)
    requires ValidWalk(w) && HasPositions(w)
    requires DrawnUpTo(w, LastIndex(w) + 1, ops, segment, kind)
    ensures WalkOps(w) == (ops + if w.isClosed then [ClosePath] else [], true)
  {
    assert ops + [] == ops;
  }

  /** The state `drawContourToPath` carries from point to point: the calls made, the open segment's points and kind. */
  datatype Pen = Pen(ops: seq<DrawOp>, segment: seq<Position>, kind: SegmentType)

  /**
   * One pass of the loop of `drawContourToPath` at walk position `i`: an
   * on-curve point ends the open segment, an off-curve point extends it,
   * and any other point type stops the drawing (`None`).
   */
  function PenStep(w: Walk, i: nat, pen: Pen): (r: Option<Pen>)
    requires ValidWalk(w) && HasPositions(w) && 1 <= i <= LastIndex(w) && pen.kind != QuadBlob
    ensures r.Some? <==> IsLegalType(WalkType(w, i))
    ensures r.Some? ==> r.value.kind != QuadBlob
  {
    var pointType := WalkType(w, i);
    if pointType == ON_CURVE then Some(Pen(pen.ops + SegmentOps(pen.kind, pen.segment + [WalkPoint(w, i)]), [], Line))
    else if pointType == OFF_CURVE_QUAD then Some(Pen(pen.ops, pen.segment + [WalkPoint(w, i)], Quad))
    else if pointType == OFF_CURVE_CUBIC then Some(Pen(pen.ops, pen.segment + [WalkPoint(w, i)], Cubic))
    else None
  }

  /** The state before walk position `i`, starting from the move to the first point; `None` once a point type was illegal. */
  function PenBefore(w: Walk, i: nat): (r: Option<Pen>)
    requires ValidWalk(w) && HasPositions(w) && 1 <= i <= LastIndex(w) + 1
    ensures r.Some? ==> r.value.kind != QuadBlob
    decreases i
  {
    if i == 1 then Some(Pen([MoveTo(WalkPoint(w, 0))], [], Line))
    else match PenBefore(w, i - 1)
      case None => None
      case Some(pen) => PenStep(w, i - 1, pen)
  }

  /** The state before position `i` is there exactly when no earlier point type was illegal, and it is the drawing so far. */
  lemma {:induction false} PenBeforeDrawn(w: Walk, i: nat)
    requires ValidWalk(w) && HasPositions(w) && 1 <= i <= LastIndex(w) + 1
    ensures PenBefore(w, i).Some? <==> FirstIllegal(w, i) == None
    ensures PenBefore(w, i).Some? ==> var pen := PenBefore(w, i).value; DrawnUpTo(w, i, pen.ops, pen.segment, pen.kind)
    decreases i
  {
    if i == 1 {
      StepStart(w);
    } else {
      PenBeforeDrawn(w, i - 1);
      match PenBefore(w, i - 1)
      case None =>
        FirstIllegalStable(w, i - 1, i);
      case Some(pen) =>
        var t := WalkType(w, i - 1);
        if t == ON_CURVE {
          StepOnCurve(w, i - 1, pen.ops, pen.segment, pen.kind);
        } else if t == OFF_CURVE_QUAD || t == OFF_CURVE_CUBIC {
          StepOffCurve(w, i - 1, pen.ops, pen.segment, pen.kind);
        }
    }
  }

  /** What the walk draws once the state before position `i` is known: the state's calls when position `i` is illegal. */
  lemma PenStopped(w: Walk, i: nat, pen: Pen)
    requires ValidWalk(w) && HasPositions(w) && 1 <= i <= LastIndex(w)
    requires PenBefore(w, i) == Some(pen) && PenStep(w, i, pen).None?
    ensures WalkOps(w) == (pen.ops, false)
  {
    PenBeforeDrawn(w, i);
    StepIllegal(w, i);
  }

  /** What the walk draws when every position was passed. */
  lemma PenFinished(w: Walk, pen: Pen)
    requires ValidWalk(w) && HasPositions(w)
    requires PenBefore(w, LastIndex(w) + 1) == Some(pen)
    ensures w.isClosed ==> WalkOps(w) == (pen.ops + [ClosePath], true)
    ensures !w.isClosed ==> WalkOps(w) == (pen.ops, true)
  {
    PenBeforeDrawn(w, LastIndex(w) + 1);
    StepFinish(w, pen.ops, pen.segment, pen.kind);
    assert pen.ops + [] == pen.ops;
  }

  /**
   * `drawContourToPath`. The source's loop treats position 0 specially (a
   * move instead of a segment point); here that first iteration is peeled
   * off before the loop, which then runs over positions `1..lastIndex`.
   */
  method DrawContourToPath(w: Walk) returns (ops: seq<DrawOp>, ok: bool)
    requires ValidWalk(w) && HasPositions(w)
    ensures (ops, ok) == WalkOps(w)
  {
    var lastIndex := if w.isClosed then w.numPoints else w.numPoints - 1 - w.firstOnCurve;
    ops := [MoveTo(WalkPoint(w, 0))];
    var currentSegment: seq<Position> := [];
    var segmentKind := Line;
    var i := 1;
    while i <= lastIndex
      invariant lastIndex == LastIndex(w) && 1 <= i <= lastIndex + 1
      invariant PenBefore(w, i) == Some(Pen(ops, currentSegment, segmentKind))
    {
      var legal;
      ops, currentSegment, segmentKind, legal := DrawPoint(w, i, ops, currentSegment, segmentKind);
      if !legal {
        ok := false;
        return;
      }
      i := i + 1;
    }
    PenFinished(w, Pen(ops, currentSegment, segmentKind));
    if w.isClosed {
      ops := ops + [ClosePath];
    }
    ok := true;
  }

  /** One pass of the loop of `drawContourToPath`: the point at walk position `i` extends or ends the open segment. */
  method DrawPoint(w: Walk, i: nat, ops: seq<DrawOp>, segment: seq<Position>, kind: SegmentType)
    returns (ops': seq<DrawOp>, segment': seq<Position>, kind': SegmentType, legal: bool)
    requires ValidWalk(w) && HasPositions(w) && 1 <= i <= LastIndex(w)
    requires PenBefore(w, i) == Some(Pen(ops, segment, kind))
    ensures legal ==> PenBefore(w, i + 1) == Some(Pen(ops', segment', kind'))
    ensures !legal ==> WalkOps(w) == (ops', false)
  {
    var index := PointIndexAt(w, i);
    var pointType := MaskedType(w.pointTypes[index]);
    var point := w.points[index];
    legal := true;
    if pointType == ON_CURVE {
      var segmentOps := DrawSegment(kind, segment + [point]);
      ops', segment', kind' := ops + segmentOps, [], Line;
    } else if pointType == OFF_CURVE_QUAD {
      ops', segment', kind' := ops, segment + [point], Quad;
    } else if pointType == OFF_CURVE_CUBIC {
      ops', segment', kind' := ops, segment + [point], Cubic;
    } else {
      PenStopped(w, i, Pen(ops, segment, kind));
      ops', segment', kind', legal := ops, segment, kind, false;
    }
  }

  /** No call of the segments between the first point and the end of the walk moves or closes. */
  lemma {:induction false} OpsBeforeAreSegmentOps(w: Walk, i: nat)
    requires ValidWalk(w) && HasPositions(w) && i <= LastIndex(w) + 1
    ensures forall k :: 0 <= k < |OpsBefore(w, i)| ==> IsSegmentOp(OpsBefore(w, i)[k])
  {
    if i > 1 {
      OpsBeforeAreSegmentOps(w, i - 1);
      if WalkType(w, i - 1) == ON_CURVE {
        var a := SegmentStart(w, i - 1);
        SegmentOpsShape(SegmentKind(w, a, i - 1), SegmentPoints(w, a, i - 1));
      }
    }
  }

  /**
   * A walk draws exactly one sub-path: it begins with the only move, at
   * the first on-curve point, and a closed walk that completes ends with
   * the only close.
   */
  lemma WalkOpsShape(w: Walk)
    requires ValidWalk(w) && HasPositions(w)
    ensures var (ops, ok) := WalkOps(w);
            && |ops| >= 1 && ops[0] == MoveTo(WalkPoint(w, 0))
            && (forall k :: 1 <= k < |ops| ==> !ops[k].MoveTo?)
            && (ok && w.isClosed <==> ops[|ops| - 1] == ClosePath)
            && (forall k :: 0 <= k < |ops| - 1 ==> !ops[k].ClosePath?)
  {
    var (ops, ok) := WalkOps(w);
    match FirstIllegal(w, LastIndex(w) + 1) {
      case Some(j) =>
        OpsBeforeAreSegmentOps(w, j);
      case None =>
        OpsBeforeAreSegmentOps(w, LastIndex(w) + 1);
    }
  }

  /**
   * A closed walk over on-curve points only draws a line to every point
   * after the first and back to the first, then closes.
   */
  lemma {:induction false} AllOnCurveOpsBefore(w: Walk, i: nat)
    requires ValidWalk(w) && HasPositions(w) && i <= LastIndex(w) + 1
    requires forall j :: 0 <= j <= LastIndex(w) ==> WalkType(w, j) == ON_CURVE
    ensures |OpsBefore(w, i)| == if i == 0 then 0 else i - 1
    ensures forall k :: 0 <= k < |OpsBefore(w, i)| ==> OpsBefore(w, i)[k] == LineTo(WalkPoint(w, k + 1))
  {
    if i > 1 {
      AllOnCurveOpsBefore(w, i - 1);
      assert SegmentStart(w, i - 1) == i - 2;
      assert SegmentPoints(w, i - 2, i - 1) == [WalkPoint(w, i - 1)];
    }
  }

  /** A closed walk over on-curve points only draws without error: the move, the segments, the close. */
  lemma AllOnCurveDrawn(w: Walk)
    requires ValidWalk(w) && HasPositions(w) && w.isClosed
    requires forall j :: 0 <= j <= LastIndex(w) ==> WalkType(w, j) == ON_CURVE
    ensures WalkOps(w) == ([MoveTo(WalkPoint(w, 0))] + OpsBefore(w, LastIndex(w) + 1) + [ClosePath], true)
  {
    assert FirstIllegal(w, LastIndex(w) + 1).None?;
  }

  /** The calls of such a walk: the move, a line to every point after the first and back to the first, the close. */
  lemma AllOnCurveLines(w: Walk)
    requires ValidWalk(w) && HasPositions(w) && w.isClosed
    requires forall j :: 0 <= j <= LastIndex(w) ==> WalkType(w, j) == ON_CURVE
    ensures var ops := [MoveTo(WalkPoint(w, 0))] + OpsBefore(w, LastIndex(w) + 1) + [ClosePath];
            && |ops| == w.numPoints + 2
            && forall k :: 1 <= k <= w.numPoints ==> ops[k] == LineTo(WalkPoint(w, k))
  {
    AllOnCurveOpsBefore(w, LastIndex(w) + 1);
    var before := OpsBefore(w, LastIndex(w) + 1);
    var ops := [MoveTo(WalkPoint(w, 0))] + before + [ClosePath];
    forall k | 1 <= k <= w.numPoints ensures ops[k] == LineTo(WalkPoint(w, k)) {
      assert ops[k] == before[k - 1];
    }
  }

  lemma AllOnCurveWalk(w: Walk)
    requires ValidWalk(w) && HasPositions(w) && w.isClosed
    requires forall j :: 0 <= j <= LastIndex(w) ==> WalkType(w, j) == ON_CURVE
    ensures WalkOps(w).1
    ensures |WalkOps(w).0| == w.numPoints + 2
    ensures forall k :: 1 <= k <= w.numPoints ==> WalkOps(w).0[k] == LineTo(WalkPoint(w, k))
    ensures WalkOps(w).0[w.numPoints] == LineTo(WalkPoint(w, 0))
  {
    AllOnCurveDrawn(w);
    AllOnCurveLines(w);
  }

  //
  // Contours
  //

  /** The first point of `n` points from `start` whose masked type is on-curve. */
  function FirstOnCurve(pointTypes: seq<int>, start: nat, n: nat): (r: Option<nat>)
    requires start + n <= |pointTypes|
    ensures r.Some? ==> r.value < n && MaskedType(pointTypes[start + r.value]) == ON_CURVE
  {
    if n == 0 then None
    else match FirstOnCurve(pointTypes, start, n - 1)
      case Some(f) => Some(f)
      case None => if MaskedType(pointTypes[start + n - 1]) == ON_CURVE then Some(n - 1) else None
  }

  /** No point before the one `FirstOnCurve` finds is on-curve; when it finds none, no point is. */
  lemma {:induction false} FirstOnCurveIsFirst(pointTypes: seq<int>, start: nat, n: nat)
    requires start + n <= |pointTypes|
    ensures FirstOnCurve(pointTypes, start, n).Some? ==>
              forall i :: start <= i < start + FirstOnCurve(pointTypes, start, n).value ==> MaskedType(pointTypes[i]) != ON_CURVE
    ensures FirstOnCurve(pointTypes, start, n).None? ==> forall i :: start <= i < start + n ==> MaskedType(pointTypes[i]) != ON_CURVE
  {
    if n > 0 {
      FirstOnCurveIsFirst(pointTypes, start, n - 1);
    }
  }

  /** The search for the first on-curve point that opens `_drawContourToPath2d` and the segment iterator. */
  method FindFirstOnCurve(pointTypes: seq<int>, start: nat, n: nat) returns (r: Option<nat>)
    requires start + n <= |pointTypes|
    ensures r == FirstOnCurve(pointTypes, start, n)
  {
    var i := 0;
    while i < n
      invariant 0 <= i <= n
      invariant forall j :: start <= j < start + i ==> MaskedType(pointTypes[j]) != ON_CURVE
    {
      if MaskedType(pointTypes[i + start]) == ON_CURVE {
        FirstOnCurveIs(pointTypes, start, n, i);
        return Some(i);
      }
      i := i + 1;
    }
    FirstOnCurveNone(pointTypes, start, n);
    return None;
  }

  lemma {:induction false} FirstOnCurveIs(pointTypes: seq<int>, start: nat, n: nat, f: nat)
    requires start + n <= |pointTypes| && f < n && MaskedType(pointTypes[start + f]) == ON_CURVE
    requires forall j :: start <= j < start + f ==> MaskedType(pointTypes[j]) != ON_CURVE
    ensures FirstOnCurve(pointTypes, start, n) == Some(f)
  {
    if f < n - 1 {
      FirstOnCurveIs(pointTypes, start, n - 1, f);
    } else {
      FirstOnCurveNone(pointTypes, start, n - 1);
    }
  }

  lemma {:induction false} FirstOnCurveNone(pointTypes: seq<int>, start: nat, n: nat)
    requires start + n <= |pointTypes|
    requires forall j :: start <= j < start + n ==> MaskedType(pointTypes[j]) != ON_CURVE
    ensures FirstOnCurve(pointTypes, start, n) == None
  {
    if n > 0 {
      FirstOnCurveNone(pointTypes, start, n - 1);
    }
  }

  /** The implied on-curve point of a quad blob: halfway between its last and its first point. */
  function BlobMidpoint(blob: seq<Position>): (m: Position)
    ensures |blob| > 0 ==> m == Midpoint(blob[0], blob[|blob| - 1])
    ensures |blob| == 0 ==> m == NotANumber
  {
    if |blob| == 0 then NotANumber else Midpoint(blob[0], blob[|blob| - 1])
  }

  /**
   * The implied on-curve point as the source computes it: the blob's
   * positions are a copy of the contour's, yet the last one is looked up
   * at the contour's absolute end point index, which lies past the copy
   * unless the contour is the path's first.
   */
  function BlobMidpointAsWritten(blob: seq<Position>, endPoint: int): Position {
    if 0 <= endPoint < |blob| then Midpoint(blob[0], blob[endPoint]) else NotANumber
  }

  /** The source's implied point is `NaN` for a blob after the first contour, and right for the first one. */
  lemma BlobMidpointAsWrittenDiffers(blob: seq<Position>, startPoint: nat)
    requires |blob| > 0 && forall i :: 0 <= i < |blob| ==> blob[i].At?
    ensures startPoint > 0 ==> BlobMidpointAsWritten(blob, startPoint + |blob| - 1) == NotANumber
                               && BlobMidpoint(blob).At?
    ensures startPoint == 0 ==> BlobMidpointAsWritten(blob, startPoint + |blob| - 1) == BlobMidpoint(blob)
  {
  }

  /** The walk drawn for a quad blob: the implied point, then the blob's points, closed. */
  function BlobWalk(blob: seq<Position>, blobTypes: seq<int>, implied: Position): (w: Walk)
    requires |blobTypes| == |blob|
    ensures ValidWalk(w) && HasPositions(w) && w.isClosed && w.numPoints == |blob| + 1
  {
    Walk([implied] + blob, [ON_CURVE] + blobTypes, 0, |blob| + 1, 0, true)
  }

  /**
   * A blob of quadratic off-curve points is drawn as one closed run of
   * quadratic curves from the implied point through the blob and back.
   */
  lemma QuadBlobOps(blob: seq<Position>, blobTypes: seq<int>, implied: Position)
    requires |blobTypes| == |blob| > 0
    requires forall i :: 0 <= i < |blobTypes| ==> MaskedType(blobTypes[i]) == OFF_CURVE_QUAD
    ensures WalkOps(BlobWalk(blob, blobTypes, implied))
         == ([MoveTo(implied)] + QuadSegmentOps(blob + [implied]) + [ClosePath], true)
  {
    var w := BlobWalk(blob, blobTypes, implied);
    BlobOpsBefore(blob, blobTypes, implied);
    assert WalkPoint(w, 0) == implied;
  }

  /** Positions `1..n` of a blob walk are the blob's points, in order. */
  lemma BlobWalkAt(blob: seq<Position>, blobTypes: seq<int>, implied: Position, j: nat)
    requires |blobTypes| == |blob| && 1 <= j <= |blob|
    ensures WalkIndex(BlobWalk(blob, blobTypes, implied), j) == j
    ensures WalkType(BlobWalk(blob, blobTypes, implied), j) == MaskedType(blobTypes[j - 1])
    ensures WalkPoint(BlobWalk(blob, blobTypes, implied), j) == blob[j - 1]
  {
  }

  lemma {:induction false} BlobSegmentPoints(blob: seq<Position>, blobTypes: seq<int>, implied: Position, j: nat)
    requires |blobTypes| == |blob| && j <= |blob|
    ensures SegmentPoints(BlobWalk(blob, blobTypes, implied), 0, j) == blob[..j]
  {
    if j > 0 {
      BlobSegmentPoints(blob, blobTypes, implied, j - 1);
      BlobWalkAt(blob, blobTypes, implied, j);
      assert blob[..j] == blob[..j - 1] + [blob[j - 1]];
    }
  }

  /** The segments of a blob walk: none until the walk returns to the implied point, then one quadratic run. */
  lemma BlobOpsBefore(blob: seq<Position>, blobTypes: seq<int>, implied: Position)
    requires |blobTypes| == |blob| > 0
    requires forall i :: 0 <= i < |blobTypes| ==> MaskedType(blobTypes[i]) == OFF_CURVE_QUAD
    ensures FirstIllegal(BlobWalk(blob, blobTypes, implied), |blob| + 2).None?
    ensures OpsBefore(BlobWalk(blob, blobTypes, implied), |blob| + 2) == QuadSegmentOps(blob + [implied])
  {
    var w := BlobWalk(blob, blobTypes, implied);
    var n := |blob|;
    forall j | 1 <= j < n + 1 ensures WalkType(w, j) == OFF_CURVE_QUAD {
      BlobWalkAt(blob, blobTypes, implied, j);
    }
    NoSegmentBefore(w, n + 1);
    SegmentStartAcrossOffCurve(w, n + 1);
    assert WalkIndex(w, n + 1) == 0;
    assert WalkType(w, n + 1) == ON_CURVE;
    BlobSegmentPoints(blob, blobTypes, implied, n);
    assert blob[..n] == blob;
    assert SegmentPoints(w, 0, n + 1) == blob + [implied];
    assert SegmentKind(w, 0, n + 1) == Quad;
    assert OpsBefore(w, n + 2) == [] + SegmentOpsAt(w, n + 1);
  }

  lemma {:induction false} NoSegmentBefore(w: Walk, i: nat)
    requires ValidWalk(w) && HasPositions(w) && i <= LastIndex(w) + 1
    requires forall j :: 1 <= j < i ==> WalkType(w, j) == OFF_CURVE_QUAD
    ensures OpsBefore(w, i) == [] && FirstIllegal(w, i).None?
  {
    if i > 1 {
      NoSegmentBefore(w, i - 1);
    }
  }

  lemma {:induction false} SegmentStartAcrossOffCurve(w: Walk, i: nat)
    requires ValidWalk(w) && 1 <= i <= LastIndex(w) + 1
    requires forall j :: 1 <= j < i ==> WalkType(w, j) != ON_CURVE
    ensures SegmentStart(w, i) == 0
  {
    if i > 1 {
      SegmentStartAcrossOffCurve(w, i - 1);
    }
  }

  /**
   * `_drawContourToPath2d` for `n` points from `start`: the walk from the
   * first on-curve point, or, for a quad blob, the walk through the
   * implied point.
   */
  function ContourOps(points: seq<Position>, pointTypes: seq<int>, start: nat, n: nat, isClosed: bool): (seq<DrawOp>, bool)
    requires start + n <= |pointTypes| && start + n <= |points|
  {
    match FirstOnCurve(pointTypes, start, n)
    case Some(f) => WalkOps(Walk(points, pointTypes, start, n, f, isClosed))
    case None =>
      var blob := points[start..start + n];
      WalkOps(BlobWalk(blob, pointTypes[start..start + n], BlobMidpoint(blob)))
  }

  /** The same, with the implied point as the source computes it. */
  function ContourOpsAsWritten(points: seq<Position>, pointTypes: seq<int>, start: nat, n: nat, isClosed: bool): (seq<DrawOp>, bool)
    requires start + n <= |pointTypes| && start + n <= |points|
  {
    match FirstOnCurve(pointTypes, start, n)
    case Some(f) => WalkOps(Walk(points, pointTypes, start, n, f, isClosed))
    case None =>
      var blob := points[start..start + n];
      WalkOps(BlobWalk(blob, pointTypes[start..start + n], BlobMidpointAsWritten(blob, start + n - 1)))
  }

  /** Every walk's drawing starts with a move to its first position. */
  lemma WalkOpsStart(w: Walk)
    requires ValidWalk(w) && HasPositions(w)
    ensures |WalkOps(w).0| >= 1 && WalkOps(w).0[0] == MoveTo(WalkPoint(w, 0))
  {
  }

  /** A blob's walk starts at the implied point. */
  lemma BlobWalkStart(blob: seq<Position>, blobTypes: seq<int>, implied: Position)
    requires |blobTypes| == |blob|
    ensures WalkPoint(BlobWalk(blob, blobTypes, implied), 0) == implied
  {
  }

  /** As written, a quad blob that is not the first contour is drawn starting from a `NaN` point. */
  lemma BlobAsWrittenStartsAtNaN(points: seq<Position>, pointTypes: seq<int>, start: nat, n: nat, isClosed: bool)
    requires start + n <= |pointTypes| && start + n <= |points| && start > 0
    requires FirstOnCurve(pointTypes, start, n).None?
    ensures ContourOpsAsWritten(points, pointTypes, start, n, isClosed).0[0] == MoveTo(NotANumber)
  {
    var blob := points[start..start + n];
    var w := BlobWalk(blob, pointTypes[start..start + n], BlobMidpointAsWritten(blob, start + n - 1));
    BlobWalkStart(blob, pointTypes[start..start + n], BlobMidpointAsWritten(blob, start + n - 1));
    WalkOpsStart(w);
  }

  /** With the corrected implied point, a blob of real points starts at the midpoint of its last and first points. */
  lemma BlobStartsAtMidpoint(points: seq<Position>, pointTypes: seq<int>, start: nat, n: nat, isClosed: bool)
    requires start + n <= |pointTypes| && start + n <= |points| && n > 0
    requires FirstOnCurve(pointTypes, start, n).None?
    ensures ContourOps(points, pointTypes, start, n, isClosed).0[0]
         == MoveTo(Midpoint(points[start], points[start + n - 1]))
  {
    var blob := points[start..start + n];
    var w := BlobWalk(blob, pointTypes[start..start + n], BlobMidpoint(blob));
    ContourOpsOfBlob(points, pointTypes, start, n, isClosed);
    BlobWalkStart(blob, pointTypes[start..start + n], BlobMidpoint(blob));
    WalkOpsStart(w);
    assert blob[0] == points[start] && blob[n - 1] == points[start + n - 1];
  }

  /** A contour without an on-curve point is drawn as its blob's walk. */
  lemma ContourOpsOfBlob(points: seq<Position>, pointTypes: seq<int>, start: nat, n: nat, isClosed: bool)
    requires start + n <= |pointTypes| && start + n <= |points|
    requires FirstOnCurve(pointTypes, start, n).None?
    ensures ContourOps(points, pointTypes, start, n, isClosed)
         == WalkOps(BlobWalk(points[start..start + n], pointTypes[start..start + n], BlobMidpoint(points[start..start + n])))
  {
  }

  /** `_drawContourToPath2d`, with the implied blob point corrected. */
  method DrawContour(points: seq<Position>, pointTypes: seq<int>, start: nat, n: nat, isClosed: bool)
    returns (ops: seq<DrawOp>, ok: bool)
    requires start + n <= |pointTypes| && start + n <= |points|
    ensures (ops, ok) == ContourOps(points, pointTypes, start, n, isClosed)
  {
    var firstOnCurve := FindFirstOnCurve(pointTypes, start, n);
    if firstOnCurve.Some? {
      ops, ok := DrawContourToPath(Walk(points, pointTypes, start, n, firstOnCurve.value, isClosed));
    } else {
      var blob := points[start..start + n];
      var blobTypes := pointTypes[start..start + n];
      var implied := BlobMidpoint(blob);
      ops, ok := DrawContourToPath(BlobWalk(blob, blobTypes, implied));
    }
  }

  //
  // Paths
  //

  /** What `_drawContourToPath2d` draws for contour `c` of a path. */
  function ContourDrawn(p: PathValue, c: nat): (r: (seq<DrawOp>, bool))
    requires Wf(p) && c < |p.contourInfo|
    ensures MoveCount(r.0) == 1
  {
    ContourBounds(p, c);
    var start := ContourStart(p.contourInfo, c);
    PointsDrawn(p, start, p.contourInfo[c].endPoint + 1 - start, p.contourInfo[c].isClosed)
  }

  /** What `_drawContourToPath2d` draws for the `n` points of a path from `start`: exactly one sub-path. */
  function PointsDrawn(p: PathValue, start: nat, n: nat, isClosed: bool): (r: (seq<DrawOp>, bool))
    requires |p.coordinates| == 2 * |p.pointTypes| && start + n <= |p.pointTypes|
    ensures MoveCount(r.0) == 1
  {
    ContourOpsOneMove(PositionsOf(p.coordinates), p.pointTypes, start, n, isClosed);
    ContourOps(PositionsOf(p.coordinates), p.pointTypes, start, n, isClosed)
  }

  /** What `_drawContourToPath2d` draws for each contour of a path. */
  function ContourDrawings(p: PathValue): (ds: seq<(seq<DrawOp>, bool)>)
    requires Wf(p)
    ensures |ds| == |p.contourInfo|
  {
    seq(|p.contourInfo|, k requires 0 <= k < |p.contourInfo| => ContourDrawn(p, k))
  }

  /**
   * `drawToPath2d` from contour `c` on, given what each contour draws: every
   * contour in turn, the first that raises ending the drawing.
   */
  function DrawnFrom(drawings: seq<(seq<DrawOp>, bool)>, c: nat): (seq<DrawOp>, bool)
    requires c <= |drawings|
    decreases |drawings| - c
  {
    if c == |drawings| then ([], true)
    else if !drawings[c].1 then (drawings[c].0, false)
    else
      var rest := DrawnFrom(drawings, c + 1);
      (drawings[c].0 + rest.0, rest.1)
  }

  /** `drawToPath2d`: the calls the whole path makes, and whether it returns normally. */
  function PathOps(p: PathValue): (seq<DrawOp>, bool)
    requires Wf(p)
  {
    DrawnFrom(ContourDrawings(p), 0)
  }

  /** The state of `drawToPath2d` before contour `c`: `ops` drawn, the rest still to come. */
  ghost predicate PathDrawnUpTo(drawings: seq<(seq<DrawOp>, bool)>, c: nat, ops: seq<DrawOp>)
    requires c <= |drawings|
  {
    DrawnFrom(drawings, 0).0 == ops + DrawnFrom(drawings, c).0 && DrawnFrom(drawings, 0).1 == DrawnFrom(drawings, c).1
  }

  lemma PathDrawnStart(drawings: seq<(seq<DrawOp>, bool)>)
    ensures PathDrawnUpTo(drawings, 0, [])
  {
    assert [] + DrawnFrom(drawings, 0).0 == DrawnFrom(drawings, 0).0;
  }

  /** One step of `drawToPath2d`: contour `c` drawn, then the rest unless it raised. */
  lemma PathDrawnStep(drawings: seq<(seq<DrawOp>, bool)>, c: nat, ops: seq<DrawOp>)
    requires c < |drawings| && PathDrawnUpTo(drawings, c, ops)
    ensures !drawings[c].1 ==> DrawnFrom(drawings, 0) == (ops + drawings[c].0, false)
    ensures drawings[c].1 ==> PathDrawnUpTo(drawings, c + 1, ops + drawings[c].0)
  {
  }

  lemma PathDrawnFinish(drawings: seq<(seq<DrawOp>, bool)>, ops: seq<DrawOp>)
    requires PathDrawnUpTo(drawings, |drawings|, ops)
    ensures DrawnFrom(drawings, 0) == (ops, true)
  {
    assert ops + [] == ops;
  }

  /** `_drawContourToPath2d` for contour `c` of a path, from the contour's start point to its end point. */
  method DrawPathContour(p: PathValue, c: nat) returns (ops: seq<DrawOp>, ok: bool)
    requires Wf(p) && c < |p.contourInfo|
    ensures (ops, ok) == ContourDrawings(p)[c]
  {
    ContourBounds(p, c);
    ops, ok := DrawContour(PositionsOf(p.coordinates), p.pointTypes, ContourStart(p.contourInfo, c),
                           p.contourInfo[c].endPoint + 1 - ContourStart(p.contourInfo, c), p.contourInfo[c].isClosed);
  }

  /** `drawToPath2d`: every contour drawn in turn; an illegal point type ends the drawing. */
  method DrawPath(p: PathValue) returns (ops: seq<DrawOp>, ok: bool)
    requires Wf(p)
    ensures (ops, ok) == PathOps(p)
  {
    ghost var drawings := ContourDrawings(p);
    ops := [];
    var c := 0;
    PathDrawnStart(drawings);
    while c < |p.contourInfo|
      invariant c <= |p.contourInfo|
      invariant PathDrawnUpTo(drawings, c, ops)
    {
      var drawn, drawnOk := DrawPathContour(p, c);
      PathDrawnStep(drawings, c, ops);
      ops := ops + drawn;
      if !drawnOk {
        return ops, false;
      }
      c := c + 1;
    }
    PathDrawnFinish(drawings, ops);
    ok := true;
  }

  /** The number of sub-paths a list of calls begins. */
  function MoveCount(ops: seq<DrawOp>): nat {
    if |ops| == 0 then 0 else MoveCount(ops[..|ops| - 1]) + (if ops[|ops| - 1].MoveTo? then 1 else 0)
  }

  lemma {:induction false} MoveCountConcat(a: seq<DrawOp>, b: seq<DrawOp>)
    ensures MoveCount(a + b) == MoveCount(a) + MoveCount(b)
    decreases |b|
  {
    if |b| == 0 {
      assert a + b == a;
    } else {
      MoveCountConcat(a, b[..|b| - 1]);
      assert (a + b)[..|a + b| - 1] == a + b[..|b| - 1];
    }
  }

  lemma {:induction false} NoMoves(ops: seq<DrawOp>)
    requires forall k :: 0 <= k < |ops| ==> !ops[k].MoveTo?
    ensures MoveCount(ops) == 0
  {
    if |ops| > 0 {
      NoMoves(ops[..|ops| - 1]);
    }
  }

  /** A contour's calls begin exactly one sub-path, whether or not the contour raises. */
  lemma ContourOpsOneMove(points: seq<Position>, pointTypes: seq<int>, start: nat, n: nat, isClosed: bool)
    requires start + n <= |pointTypes| && start + n <= |points|
    ensures MoveCount(ContourOps(points, pointTypes, start, n, isClosed).0) == 1
  {
    var w;
    match FirstOnCurve(pointTypes, start, n) {
      case Some(f) => w := Walk(points, pointTypes, start, n, f, isClosed);
      case None =>
        var blob := points[start..start + n];
        w := BlobWalk(blob, pointTypes[start..start + n], BlobMidpoint(blob));
    }
    WalkOpsShape(w);
    var ops := WalkOps(w).0;
    assert ops == [ops[0]] + ops[1..];
    NoMoves(ops[1..]);
    MoveCountConcat([ops[0]], ops[1..]);
  }

  lemma {:induction false} DrawnFromMoves(drawings: seq<(seq<DrawOp>, bool)>, c: nat)
    requires c <= |drawings|
    requires forall k :: c <= k < |drawings| && drawings[k].1 ==> MoveCount(drawings[k].0) == 1
    ensures DrawnFrom(drawings, c).1 ==> MoveCount(DrawnFrom(drawings, c).0) == |drawings| - c
    decreases |drawings| - c
  {
    if c < |drawings| && drawings[c].1 {
      DrawnFromMoves(drawings, c + 1);
      MoveCountConcat(drawings[c].0, DrawnFrom(drawings, c + 1).0);
    }
  }

  /** A path drawn without raising opens one sub-path per contour. */
  lemma PathOpsOneMovePerContour(p: PathValue)
    requires Wf(p)
    ensures PathOps(p).1 ==> MoveCount(PathOps(p).0) == |p.contourInfo|
  {
    var drawings := ContourDrawings(p);
    DrawnFromMoves(drawings, 0);
  }

  //
  // Segment point indices
  //

  datatype Segment = Segment(segmentType: SegmentType, pointIndices: seq<int>)

  /** The point indices at walk positions `a..j`. */
  function SegmentIndices(w: Walk, a: nat, j: nat): (r: seq<int>)
    requires ValidWalk(w) && a <= j <= LastIndex(w)
    ensures |r| == j - a + 1 && r[0] == WalkIndex(w, a) && r[|r| - 1] == WalkIndex(w, j)
    decreases j
  {
    if j == a then [WalkIndex(w, a)] else SegmentIndices(w, a, j - 1) + [WalkIndex(w, j)]
  }

  lemma SegmentIndicesSnoc(w: Walk, a: nat, j: nat)
    requires ValidWalk(w) && a <= j < LastIndex(w)
    ensures SegmentIndices(w, a, j + 1) == SegmentIndices(w, a, j) + [WalkIndex(w, j + 1)]
  {
  }

  /** The segment the on-curve point at walk position `j` ends: its type and the point indices from its start point to `j`. */
  function SegmentAt(w: Walk, j: nat): Segment
    requires ValidWalk(w) && 1 <= j <= LastIndex(w)
  {
    var a := SegmentStart(w, j);
    Segment(SegmentKind(w, a, j), SegmentIndices(w, a, j))
  }

  /** The segments that end at a position in `1..i-1`. */
  function SegmentsBefore(w: Walk, i: nat): seq<Segment>
    requires ValidWalk(w) && i <= LastIndex(w) + 1
  {
    if i <= 1 then []
    else SegmentsBefore(w, i - 1) + (if WalkType(w, i - 1) == ON_CURVE then [SegmentAt(w, i - 1)] else [])
  }

  /** What the segment iterator yields for a walk, or the error it raises at an illegal point type. */
  function WalkSegments(w: Walk): Result<seq<Segment>, PathError>
    requires ValidWalk(w)
  {
    if FirstIllegal(w, LastIndex(w) + 1).Some? then Err(IllegalPointType)
    else Ok(SegmentsBefore(w, LastIndex(w) + 1))
  }

  /** What `_iterContourSegmentPointIndices` yields for `n` points from `start`, or the error it raises. */
  function ContourSegments(pointTypes: seq<int>, start: nat, n: nat, isClosed: bool): Result<seq<Segment>, PathError>
    requires start + n <= |pointTypes|
  {
    match FirstOnCurve(pointTypes, start, n)
    case None => Ok([Segment(QuadBlob, seq(n, m requires 0 <= m < n => start + m))])
    case Some(f) => WalkSegments(Walk([], pointTypes, start, n, f, isClosed))
  }

  /** The state of the segment iterator before position `i`: the segments yielded, and the open segment's indices and kind. */
  ghost predicate SegmentedUpTo(w: Walk, i: nat, segments: seq<Segment>, current: seq<int>, kind: SegmentType)
    requires ValidWalk(w) && 1 <= i <= LastIndex(w) + 1
  {
    && FirstIllegal(w, i) == None
    && segments == SegmentsBefore(w, i)
    && current == SegmentIndices(w, SegmentStart(w, i), i - 1)
    && kind == SegmentKind(w, SegmentStart(w, i), i)
  }

  lemma SegmentStepStart(w: Walk)
    requires ValidWalk(w)
    ensures SegmentedUpTo(w, 1, [], [WalkIndex(w, 0)], Line)
  {
  }

  lemma SegmentStepOnCurve(w: Walk, i: nat, p: int, segments: seq<Segment>, current: seq<int>, kind: SegmentType)
    requires ValidWalk(w) && 1 <= i <= LastIndex(w) && p == WalkIndex(w, i)
    requires SegmentedUpTo(w, i, segments, current, kind) && WalkType(w, i) == ON_CURVE
    ensures SegmentedUpTo(w, i + 1, segments + [Segment(kind, current + [p])], [p], Line)
  {
    SegmentIndicesSnoc(w, SegmentStart(w, i), i - 1);
  }

  lemma SegmentStepOffCurve(w: Walk, i: nat, p: int, segments: seq<Segment>, current: seq<int>, kind: SegmentType, newKind: SegmentType)
    requires ValidWalk(w) && 1 <= i <= LastIndex(w) && p == WalkIndex(w, i)
    requires SegmentedUpTo(w, i, segments, current, kind)
    requires WalkType(w, i) == OFF_CURVE_QUAD || WalkType(w, i) == OFF_CURVE_CUBIC
    requires newKind == if WalkType(w, i) == OFF_CURVE_QUAD then Quad else Cubic
    ensures SegmentedUpTo(w, i + 1, segments, current + [p], newKind)
  {
    SegmentIndicesSnoc(w, SegmentStart(w, i), i - 1);
    var a := SegmentStart(w, i);
    assert SegmentStart(w, i + 1) == a;
    assert SegmentKind(w, a, i + 1) == if WalkType(w, i) == OFF_CURVE_QUAD then Quad else Cubic;
  }

  /** The indices `start..start+n-1`, as the quad blob segment lists them. */
  method RangeIndices(start: nat, n: nat) returns (indices: seq<int>)
    ensures indices == seq(n, m requires 0 <= m < n => start + m)
  {
    indices := [];
    var k := 0;
    while k < n
      invariant 0 <= k <= n && |indices| == k
      invariant forall m :: 0 <= m < k ==> indices[m] == start + m
    {
      indices := indices + [start + k];
      k := k + 1;
    }
  }

  /**
   * `_iterContourSegmentPointIndices`, collected into a list as
   * `_getContourSegmentPointIndices` does: the search for the first
   * on-curve point, then the quad blob or the walk.
   */
  method IterContourSegmentPointIndices(pointTypes: seq<int>, start: nat, n: nat, isClosed: bool)
    returns (r: Result<seq<Segment>, PathError>)
    requires start + n <= |pointTypes|
    ensures r == ContourSegments(pointTypes, start, n, isClosed)
  {
    var firstOnCurve := FindFirstOnCurve(pointTypes, start, n);
    if firstOnCurve.None? {
      var indices := RangeIndices(start, n);
      r := Ok([Segment(QuadBlob, indices)]);
    } else {
      r := WalkSegmentPointIndices(Walk([], pointTypes, start, n, firstOnCurve.value, isClosed));
    }
  }

  /**
   * The walk of `_iterContourSegmentPointIndices` from the first on-curve
   * point. The first iteration, which only records the first point, is
   * peeled off before the loop.
   */
  method WalkSegmentPointIndices(w: Walk) returns (r: Result<seq<Segment>, PathError>)
    requires ValidWalk(w)
    ensures r == WalkSegments(w)
  {
    var segments: seq<Segment> := [];
    var currentSegment: seq<int> := [w.startPoint + w.firstOnCurve];
    var segmentType := Line;
    var lastIndex := if w.isClosed then w.numPoints else w.numPoints - 1 - w.firstOnCurve;
    SegmentStepStart(w);
    var i := 1;
    while i <= lastIndex
      invariant lastIndex == LastIndex(w) && 1 <= i <= lastIndex + 1
      invariant SegmentedUpTo(w, i, segments, currentSegment, segmentType)
    {
      var pointIndex := PointIndexAt(w, i);
      var pointType := MaskedType(w.pointTypes[pointIndex]);
      if pointType == ON_CURVE {
        SegmentStepOnCurve(w, i, pointIndex, segments, currentSegment, segmentType);
        segments := segments + [Segment(segmentType, currentSegment + [pointIndex])];
        currentSegment := [pointIndex];
        segmentType := Line;
      } else if pointType == OFF_CURVE_QUAD {
        SegmentStepOffCurve(w, i, pointIndex, segments, currentSegment, segmentType, Quad);
        currentSegment := currentSegment + [pointIndex];
        segmentType := Quad;
      } else if pointType == OFF_CURVE_CUBIC {
        SegmentStepOffCurve(w, i, pointIndex, segments, currentSegment, segmentType, Cubic);
        currentSegment := currentSegment + [pointIndex];
        segmentType := Cubic;
      } else {
        StepIllegal(w, i);
        return Err(IllegalPointType);
      }
      i := i + 1;
    }
    return Ok(segments);
  }

  /** The position of point `index`; an index past the points reads as `NaN`. */
  function PositionAt(points: seq<Position>, index: int): Position {
    if 0 <= index < |points| then points[index] else NotANumber
  }

  /** The positions of a list of point indices, as a segment function receives them. */
  function PositionsAt(points: seq<Position>, indices: seq<int>): (r: seq<Position>)
    ensures |r| == |indices|
  {
    if |indices| == 0 then [] else PositionsAt(points, indices[..|indices| - 1]) + [PositionAt(points, indices[|indices| - 1])]
  }

  /** A segment with a start point and at least one more, of a kind the walk produces. */
  predicate Drawable(s: Segment) {
    |s.pointIndices| >= 2 && s.segmentType != QuadBlob
  }

  /** The calls a segment function emits for a segment of the iterator: its points after the start point. */
  function SegmentOpsOf(points: seq<Position>, s: Segment): seq<DrawOp>
    requires Drawable(s)
  {
    SegmentOps(s.segmentType, PositionsAt(points, s.pointIndices[1..]))
  }

  predicate AllDrawable(segs: seq<Segment>) {
    forall k :: 0 <= k < |segs| ==> Drawable(segs[k])
  }

  function ConcatSegmentOps(points: seq<Position>, segs: seq<Segment>): seq<DrawOp>
    requires AllDrawable(segs)
  {
    if |segs| == 0 then [] else ConcatSegmentOps(points, segs[..|segs| - 1]) + SegmentOpsOf(points, segs[|segs| - 1])
  }

  lemma {:induction false} PositionsOfSegment(w: Walk, a: nat, j: nat)
    requires ValidWalk(w) && HasPositions(w) && a <= j <= LastIndex(w)
    ensures PositionsAt(w.points, SegmentIndices(w, a, j)[1..]) == SegmentPoints(w, a, j)
    decreases j
  {
    if j > a {
      PositionsOfSegment(w, a, j - 1);
      var idx := SegmentIndices(w, a, j)[1..];
      assert idx[..|idx| - 1] == SegmentIndices(w, a, j - 1)[1..];
    }
  }

  /** A segment of the iterator is drawn with the calls the drawing walk makes for it. */
  lemma SegmentAtOps(w: Walk, j: nat)
    requires ValidWalk(w) && HasPositions(w) && 1 <= j <= LastIndex(w)
    ensures Drawable(SegmentAt(w, j))
    ensures SegmentOpsOf(w.points, SegmentAt(w, j)) == SegmentOpsAt(w, j)
  {
    PositionsOfSegment(w, SegmentStart(w, j), j);
  }

  /**
   * The two walks agree: drawing a contour emits exactly the calls for the
   * segments `getContourSegmentPointIndices` reports, in order.
   */
  lemma {:induction false} DrawingFollowsSegments(w: Walk, i: nat)
    requires ValidWalk(w) && HasPositions(w) && i <= LastIndex(w) + 1
    ensures AllDrawable(SegmentsBefore(w, i))
    ensures OpsBefore(w, i) == ConcatSegmentOps(w.points, SegmentsBefore(w, i))
  {
    if i > 1 {
      DrawingFollowsSegments(w, i - 1);
      if WalkType(w, i - 1) == ON_CURVE {
        FollowOnCurve(w, i);
      } else {
        FollowOffCurve(w, i);
      }
    }
  }

  lemma FollowOnCurve(w: Walk, i: nat)
    requires ValidWalk(w) && HasPositions(w) && 1 < i <= LastIndex(w) + 1 && WalkType(w, i - 1) == ON_CURVE
    requires AllDrawable(SegmentsBefore(w, i - 1))
    requires OpsBefore(w, i - 1) == ConcatSegmentOps(w.points, SegmentsBefore(w, i - 1))
    ensures AllDrawable(SegmentsBefore(w, i))
    ensures OpsBefore(w, i) == ConcatSegmentOps(w.points, SegmentsBefore(w, i))
  {
    SegmentAtOps(w, i - 1);
    assert SegmentsBefore(w, i) == SegmentsBefore(w, i - 1) + [SegmentAt(w, i - 1)];
    assert OpsBefore(w, i) == OpsBefore(w, i - 1) + SegmentOpsAt(w, i - 1);
    ConcatSnoc(w.points, SegmentsBefore(w, i - 1), SegmentAt(w, i - 1));
  }

  /** Drawing one more segment appends that segment's calls. */
  lemma ConcatSnoc(points: seq<Position>, segs: seq<Segment>, s: Segment)
    requires AllDrawable(segs) && Drawable(s)
    ensures AllDrawable(segs + [s])
    ensures ConcatSegmentOps(points, segs + [s]) == ConcatSegmentOps(points, segs) + SegmentOpsOf(points, s)
  {
    assert (segs + [s])[..|segs|] == segs;
  }

  lemma FollowOffCurve(w: Walk, i: nat)
    requires ValidWalk(w) && HasPositions(w) && 1 < i <= LastIndex(w) + 1 && WalkType(w, i - 1) != ON_CURVE
    ensures SegmentsBefore(w, i) == SegmentsBefore(w, i - 1)
    ensures OpsBefore(w, i) == OpsBefore(w, i - 1)
  {
    assert SegmentsBefore(w, i) == SegmentsBefore(w, i - 1) + [];
    assert OpsBefore(w, i) == OpsBefore(w, i - 1) + [];
  }
}
