/**
 * The packed path representation of `VarPackedPath`, as values.
 *
 * A path is three parallel arrays: interleaved coordinates, one integer
 * point type per point, and one `{endPoint, isClosed}` entry per contour
 * whose `endPoint` is the absolute index of the contour's last point. This
 * module states what a well-formed path is, views a path as the list of its
 * contours, and proves that the splice-and-shift edits the class performs
 * are the corresponding edits of that list.
 */
module PathData {
  import opened Base

  /** Point type constants. The low three bits hold the kind of point. */
  const ON_CURVE: int := 0x00
  const OFF_CURVE_QUAD: int := 0x01
  const OFF_CURVE_CUBIC: int := 0x02
  const SMOOTH_FLAG: int := 0x08
  const POINT_TYPE_MASK: int := 0x07

  const POINT_TYPE_QUAD: string := "quad"
  const POINT_TYPE_CUBIC: string := "cubic"

  /**
   * `t & POINT_TYPE_MASK` on a two's-complement integer. Dafny's `%` is
   * Euclidean, so the remainder by 8 equals the low three bits also for a
   * negative `t`.
   */
  function MaskedType(t: int): (m: int)
    ensures 0 <= m <= POINT_TYPE_MASK
    ensures (m - t) % 8 == 0
  {
    t % 8
  }

  /** `(t & SMOOTH_FLAG) != 0`: bit 3 of the two's-complement integer. */
  predicate HasSmoothFlag(t: int) {
    (t / 8) % 2 == 1
  }

  /** The point types a path built through the API can hold. */
  predicate IsCanonicalType(t: int) {
    t == ON_CURVE || t == OFF_CURVE_QUAD || t == OFF_CURVE_CUBIC || t == ON_CURVE + SMOOTH_FLAG
  }

  datatype ContourInfo = ContourInfo(endPoint: int, isClosed: bool)

  datatype PathValue = PathValue(coordinates: seq<real>, pointTypes: seq<int>, contourInfo: seq<ContourInfo>)

  /** What `getContour` returns and `setContour`/`insertContour` accept. */
  datatype PackedContour = PackedContour(coordinates: seq<real>, pointTypes: seq<int>, isClosed: bool)

  /** An unpacked point `{x, y, type?, smooth?}`; absent keys are `None`/`false`. */
  datatype Point = Point(x: real, y: real, pointType: Option<string>, smooth: bool)

  datatype UnpackedContour = UnpackedContour(points: seq<Point>, isClosed: bool)

  /** The exceptions the path operations raise. */
  datatype PathError =
    | ContourIndexOutOfBounds(contourIndex: int)
    | ContourPointIndexOutOfBounds(contourPointIndex: int)
    | PointIndexOutOfBounds(pointIndex: int)
      /** A `TypeError`: `endPoint` read from a contour entry that does not exist. */
    | NoSuchContour(contourIndex: int)
      /** A `TypeError`: a pen method that needs a current contour was called on a path without one. */
    | NoCurrentContour
    | OddQuadArgumentCount
    | IllegalPointType
    | PathsNotCompatible
    | ArrayLengthMismatch(thisLength: nat, otherLength: nat)
      /** A `TypeError`: a method the path does not define was called on it. */
    | NotAFunction(name: string)
      /** A `TypeError`: the position of a point that does not exist was read. */
    | NoSuchPoint(pointIndex: int)

  predicate WfContour(k: PackedContour) {
    |k.coordinates| == 2 * |k.pointTypes|
  }

  /** The absolute index of the first point of contour `c`; for `c == |ci|`, where a contour appended now would start. */
  function ContourStart(ci: seq<ContourInfo>, c: nat): int
    requires c <= |ci|
  {
    if c == 0 then 0 else ci[c - 1].endPoint + 1
  }

  /**
   * No contour ends before it starts (`endPoint >= startPoint - 1`, where
   * a contour starts after the previous one's end point). Empty contours
   * are allowed. That no start is negative follows from the same test on
   * the contours before; it is stated here so that it is at hand.
   */
  predicate EndPointsOrdered(ci: seq<ContourInfo>) {
    forall c {:trigger ContourStart(ci, c)} :: 0 <= c < |ci| ==> 0 <= ContourStart(ci, c) <= ci[c].endPoint + 1
  }

  /**
   * The integrity condition: the negation of what `_checkIntegrity`
   * reports as bad.
   */
  predicate Wf(p: PathValue) {
    && |p.coordinates| == 2 * |p.pointTypes|
    && EndPointsOrdered(p.contourInfo)
    && ContourStart(p.contourInfo, |p.contourInfo|) == |p.pointTypes|
  }

  function EmptyPath(): (p: PathValue)
    ensures Wf(p) && |p.contourInfo| == 0
  {
    PathValue([], [], [])
  }

  /** Contour starts never decrease. */
  lemma {:induction false} ContourStartMonotone(ci: seq<ContourInfo>, a: nat, b: nat)
    requires EndPointsOrdered(ci) && a <= b <= |ci|
    ensures ContourStart(ci, a) <= ContourStart(ci, b)
    decreases b - a
  {
    if a < b {
      ContourStartMonotone(ci, a, b - 1);
      assert ContourStart(ci, b - 1) <= ci[b - 1].endPoint + 1;
    }
  }

  /** Every contour start lies within the point array. */
  lemma ContourStartBounds(p: PathValue, c: nat)
    requires Wf(p) && c <= |p.contourInfo|
    ensures 0 <= ContourStart(p.contourInfo, c) <= |p.pointTypes|
  {
    ContourStartMonotone(p.contourInfo, 0, c);
    ContourStartMonotone(p.contourInfo, c, |p.contourInfo|);
  }

  /** End points never decrease and none is below -1. */
  lemma {:induction false} EndPointsMonotone(ci: seq<ContourInfo>, a: nat, b: nat)
    requires EndPointsOrdered(ci) && a <= b < |ci|
    ensures ci[a].endPoint <= ci[b].endPoint && -1 <= ci[b].endPoint
    decreases b
  {
    assert 0 <= ContourStart(ci, b) <= ci[b].endPoint + 1;
    if a < b {
      EndPointsMonotone(ci, a, b - 1);
    } else if b > 0 {
      EndPointsMonotone(ci, 0, b - 1);
    }
  }

  /** A point index lies in at most one contour. */
  lemma ContainingContourUnique(p: PathValue, c: nat, d: nat, i: int)
    requires Wf(p) && c < |p.contourInfo| && d < |p.contourInfo|
    requires ContourStart(p.contourInfo, c) <= i <= p.contourInfo[c].endPoint
    requires ContourStart(p.contourInfo, d) <= i <= p.contourInfo[d].endPoint
    ensures c == d
  {
    if c < d {
      EndPointsMonotone(p.contourInfo, c, d - 1);
    } else if d < c {
      EndPointsMonotone(p.contourInfo, d, c - 1);
    }
  }

  /** Every contour's points lie within the point array. */
  lemma ContourBounds(p: PathValue, c: nat)
    requires Wf(p) && c < |p.contourInfo|
    ensures 0 <= ContourStart(p.contourInfo, c) <= p.contourInfo[c].endPoint + 1 <= |p.pointTypes|
  {
    ContourStartBounds(p, c);
    ContourStartBounds(p, c + 1);
  }

  /** The first contour from `c` on whose end point is at or after `i`; `|ci|` when there is none. */
  function FirstEndingAtOrAfter(ci: seq<ContourInfo>, c: nat, i: int): (r: nat)
    requires c <= |ci|
    ensures c <= r <= |ci|
    ensures r < |ci| ==> i <= ci[r].endPoint
    ensures forall d :: c <= d < r ==> ci[d].endPoint < i
    decreases |ci| - c
  {
    if c == |ci| || i <= ci[c].endPoint then c else FirstEndingAtOrAfter(ci, c + 1, i)
  }

  /**
   * `getContourIndex`: the smallest contour whose end point is at or after
   * the point index, which is the contour holding it; `None` for a
   * negative index or one past the last point.
   */
  function ContourIndexOf(p: PathValue, i: int): (r: Option<nat>)
    requires Wf(p)
    ensures r.Some? <==> 0 <= i < |p.pointTypes|
    ensures r.Some? ==> && r.value < |p.contourInfo|
                        && ContourStart(p.contourInfo, r.value) <= i <= p.contourInfo[r.value].endPoint
                        && forall d :: 0 <= d < r.value ==> p.contourInfo[d].endPoint < i
  {
    var c := FirstEndingAtOrAfter(p.contourInfo, 0, i);
    if 0 <= i < |p.pointTypes| then Some(c)
    else
      None
  }

  /**
   * `isStartOrEndPoint`: -1 for the first point of an open contour, 1 for
   * the last point of an open contour of two or more points, 0 otherwise;
   * an index outside the path raises.
   */
  function StartOrEndValue(p: PathValue, i: int): (r: Result<int, PathError>)
    requires Wf(p)
    ensures r.Err? <==> !(0 <= i < |p.pointTypes|)
    ensures r.Err? ==> r.error == PointIndexOutOfBounds(i)
  {
    match ContourIndexOf(p, i)
    case None => Err(PointIndexOutOfBounds(i))
    case Some(c) =>
      var info := p.contourInfo[c];
      if !info.isClosed && i == ContourStart(p.contourInfo, c) then Ok(-1)
      else if !info.isClosed && i == info.endPoint then Ok(1)
      else Ok(0)
  }

  /** `getContour`: the slices of contour `c`. */
  function GetContourValue(p: PathValue, c: nat): (k: PackedContour)
    requires Wf(p) && c < |p.contourInfo|
    ensures WfContour(k)
    ensures |k.pointTypes| == p.contourInfo[c].endPoint + 1 - ContourStart(p.contourInfo, c)
  {
    ContourBounds(p, c);
    var s := ContourStart(p.contourInfo, c);
    var e := p.contourInfo[c].endPoint + 1;
    PackedContour(p.coordinates[2 * s..2 * e], p.pointTypes[s..e], p.contourInfo[c].isClosed)
  }

  /** The path seen as the list of its contours. */
  function Contours(p: PathValue): (cs: seq<PackedContour>)
    requires Wf(p)
    ensures |cs| == |p.contourInfo|
  {
    seq(|p.contourInfo|, c requires 0 <= c < |p.contourInfo| => GetContourValue(p, c))
  }

  /** Every end point moved by `offset`. */
  function Shift(ci: seq<ContourInfo>, offset: int): (r: seq<ContourInfo>)
    ensures |r| == |ci|
  {
    seq(|ci|, c requires 0 <= c < |ci| => ci[c].(endPoint := ci[c].endPoint + offset))
  }

  lemma ShiftShift(ci: seq<ContourInfo>, a: int, b: int)
    ensures Shift(Shift(ci, a), b) == Shift(ci, a + b)
  {
  }

  /** `_moveEndPoints(from, offset)`: the end points of contours `from..` moved by `offset`. */
  function MoveEndPoints(ci: seq<ContourInfo>, from: nat, offset: int): seq<ContourInfo>
    requires from <= |ci|
  {
    ci[..from] + Shift(ci[from..], offset)
  }

  /** A path made of the single contour `k`. */
  function SinglePath(k: PackedContour): PathValue {
    PathValue(k.coordinates, k.pointTypes, [ContourInfo(|k.pointTypes| - 1, k.isClosed)])
  }

  /** `concat`: the points of `b` follow those of `a`, `b`'s end points moved past `a`'s points. */
  function ConcatValue(a: PathValue, b: PathValue): PathValue {
    PathValue(a.coordinates + b.coordinates, a.pointTypes + b.pointTypes,
              a.contourInfo + Shift(b.contourInfo, |a.pointTypes|))
  }

  /** Contours `c1..c2` of `p` as a path of their own. */
  function SubPath(p: PathValue, c1: nat, c2: nat): PathValue
    requires Wf(p) && c1 <= c2 <= |p.contourInfo|
  {
    ContourStartBounds(p, c1);
    ContourStartBounds(p, c2);
    ContourStartMonotone(p.contourInfo, c1, c2);
    var s1 := ContourStart(p.contourInfo, c1);
    var s2 := ContourStart(p.contourInfo, c2);
    PathValue(p.coordinates[2 * s1..2 * s2], p.pointTypes[s1..s2], Shift(p.contourInfo[c1..c2], -s1))
  }

  /** The path `fromUnpackedContours` and repeated `appendContour` build from a list of contours. */
  function Flatten(cs: seq<PackedContour>): PathValue {
    if |cs| == 0 then EmptyPath()
    else ConcatValue(Flatten(cs[..|cs| - 1]), SinglePath(cs[|cs| - 1]))
  }

  lemma SinglePathContours(k: PackedContour)
    requires WfContour(k)
    ensures Wf(SinglePath(k)) && Contours(SinglePath(k)) == [k]
  {
    var p := SinglePath(k);
    assert ContourStart(p.contourInfo, 1) == |k.pointTypes|;
    assert EndPointsOrdered(p.contourInfo);
    assert GetContourValue(p, 0) == k;
  }

  lemma ConcatStart(a: PathValue, b: PathValue, c: nat)
    requires Wf(a) && Wf(b) && c <= |a.contourInfo| + |b.contourInfo|
    ensures ContourStart(ConcatValue(a, b).contourInfo, c)
         == if c <= |a.contourInfo| then ContourStart(a.contourInfo, c)
            else ContourStart(b.contourInfo, c - |a.contourInfo|) + |a.pointTypes|
  {
  }

  lemma ConcatWf(a: PathValue, b: PathValue)
    requires Wf(a) && Wf(b)
    ensures Wf(ConcatValue(a, b))
  {
    var q := ConcatValue(a, b);
    var na := |a.contourInfo|;
    forall c | 0 <= c < |q.contourInfo|
      ensures 0 <= ContourStart(q.contourInfo, c) <= q.contourInfo[c].endPoint + 1
    {
      ConcatStart(a, b, c);
      if c < na {
        assert 0 <= ContourStart(a.contourInfo, c) <= a.contourInfo[c].endPoint + 1;
      } else {
        assert 0 <= ContourStart(b.contourInfo, c - na) <= b.contourInfo[c - na].endPoint + 1;
      }
    }
    ConcatStart(a, b, |q.contourInfo|);
  }

  lemma ConcatContourLeft(a: PathValue, b: PathValue, c: nat)
    requires Wf(a) && Wf(b) && c < |a.contourInfo|
    ensures Wf(ConcatValue(a, b))
    ensures GetContourValue(ConcatValue(a, b), c) == GetContourValue(a, c)
  {
    ConcatWf(a, b);
    ConcatStart(a, b, c);
    ContourBounds(a, c);
    var s := ContourStart(a.contourInfo, c);
    var e := a.contourInfo[c].endPoint + 1;
    SliceOfConcatLeft(a.coordinates, b.coordinates, 2 * s, 2 * e);
    SliceOfConcatLeft(a.pointTypes, b.pointTypes, s, e);
  }

  /** Contour `c` is the slice between its start `s` and its end `e`. */
  lemma ContourSlices(p: PathValue, c: nat, s: nat, e: nat)
    requires Wf(p) && c < |p.contourInfo|
    requires ContourStart(p.contourInfo, c) == s && p.contourInfo[c].endPoint + 1 == e
    ensures s <= e <= |p.pointTypes|
    ensures GetContourValue(p, c) == PackedContour(p.coordinates[2 * s..2 * e], p.pointTypes[s..e], p.contourInfo[c].isClosed)
  {
    ContourBounds(p, c);
  }

  lemma ConcatContourRight(a: PathValue, b: PathValue, c: nat)
    requires Wf(a) && Wf(b) && |a.contourInfo| <= c < |a.contourInfo| + |b.contourInfo|
    ensures Wf(ConcatValue(a, b))
    ensures GetContourValue(ConcatValue(a, b), c) == GetContourValue(b, c - |a.contourInfo|)
  {
    ConcatWf(a, b);
    var q := ConcatValue(a, b);
    var na := |a.contourInfo|;
    var off := |a.pointTypes|;
    var s := ContourStart(b.contourInfo, c - na);
    var e := b.contourInfo[c - na].endPoint + 1;
    ConcatStart(a, b, c);
    ContourSlices(b, c - na, s, e);
    assert q.contourInfo[c] == b.contourInfo[c - na].(endPoint := e - 1 + off);
    ConcatSlicesRight(a, b, s, e);
    ShiftedContour(q, c, b, c - na, s, e, off);
  }

  /** A contour of `q` that holds the points `s..e` of contour `cb` of `b`, moved up by `off`, is that contour. */
  lemma ShiftedContour(q: PathValue, c: nat, b: PathValue, cb: nat, s: nat, e: nat, off: nat)
    requires Wf(q) && Wf(b) && c < |q.contourInfo| && cb < |b.contourInfo|
    requires ContourStart(b.contourInfo, cb) == s && b.contourInfo[cb].endPoint + 1 == e
    requires ContourStart(q.contourInfo, c) == s + off && q.contourInfo[c].endPoint + 1 == e + off
    requires q.contourInfo[c].isClosed == b.contourInfo[cb].isClosed
    requires s <= e <= |b.pointTypes| && e + off <= |q.pointTypes|
    requires q.coordinates[2 * (s + off)..2 * (e + off)] == b.coordinates[2 * s..2 * e]
    requires q.pointTypes[s + off..e + off] == b.pointTypes[s..e]
    ensures GetContourValue(q, c) == GetContourValue(b, cb)
  {
    ContourSlices(b, cb, s, e);
    ContourSlices(q, c, s + off, e + off);
  }

  /** The points `s..e` of `b` sit at `s + |a's points|..` in the concatenation. */
  lemma ConcatSlicesRight(a: PathValue, b: PathValue, s: nat, e: nat)
    requires |a.coordinates| == 2 * |a.pointTypes| && s <= e <= |b.pointTypes| && 2 * e <= |b.coordinates|
    ensures var q := ConcatValue(a, b); var off := |a.pointTypes|;
            && q.coordinates[2 * (s + off)..2 * (e + off)] == b.coordinates[2 * s..2 * e]
            && q.pointTypes[s + off..e + off] == b.pointTypes[s..e]
  {
    SliceAfterPrefix(a.coordinates, b.coordinates, 2 * s, 2 * e);
    SliceAfterPrefix(a.pointTypes, b.pointTypes, s, e);
  }

  lemma ConcatContourAt(a: PathValue, b: PathValue, c: nat)
    requires Wf(a) && Wf(b) && c < |a.contourInfo| + |b.contourInfo|
    ensures Wf(ConcatValue(a, b))
    ensures GetContourValue(ConcatValue(a, b), c)
         == if c < |a.contourInfo| then GetContourValue(a, c) else GetContourValue(b, c - |a.contourInfo|)
  {
    if c < |a.contourInfo| {
      ConcatContourLeft(a, b, c);
    } else {
      ConcatContourRight(a, b, c);
    }
  }

  /** `concat` keeps the integrity condition and lists the contours of both paths in order. */
  lemma ConcatContours(a: PathValue, b: PathValue)
    requires Wf(a) && Wf(b)
    ensures Wf(ConcatValue(a, b))
    ensures Contours(ConcatValue(a, b)) == Contours(a) + Contours(b)
  {
    ConcatWf(a, b);
    var q := ConcatValue(a, b);
    forall c | 0 <= c < |q.contourInfo|
      ensures Contours(q)[c] == (Contours(a) + Contours(b))[c]
    {
      ConcatContourAt(a, b, c);
    }
  }

  lemma SubPathStart(p: PathValue, c1: nat, c2: nat, c: nat)
    requires Wf(p) && c1 <= c2 <= |p.contourInfo| && c <= c2 - c1
    ensures ContourStart(SubPath(p, c1, c2).contourInfo, c)
         == ContourStart(p.contourInfo, c1 + c) - ContourStart(p.contourInfo, c1)
  {
  }

  lemma SubPathOrdered(p: PathValue, c1: nat, c2: nat)
    requires Wf(p) && c1 <= c2 <= |p.contourInfo|
    ensures EndPointsOrdered(SubPath(p, c1, c2).contourInfo)
  {
    var q := SubPath(p, c1, c2);
    forall c | 0 <= c < |q.contourInfo|
      ensures 0 <= ContourStart(q.contourInfo, c) <= q.contourInfo[c].endPoint + 1
    {
      SubPathStart(p, c1, c2, c);
      ContourStartMonotone(p.contourInfo, c1, c1 + c);
      assert ContourStart(p.contourInfo, c1 + c) <= p.contourInfo[c1 + c].endPoint + 1;
    }
  }

  lemma SubPathWf(p: PathValue, c1: nat, c2: nat)
    requires Wf(p) && c1 <= c2 <= |p.contourInfo|
    ensures Wf(SubPath(p, c1, c2))
  {
    var q := SubPath(p, c1, c2);
    ContourStartBounds(p, c1);
    ContourStartBounds(p, c2);
    ContourStartMonotone(p.contourInfo, c1, c2);
    SubPathOrdered(p, c1, c2);
    assert |q.contourInfo| == c2 - c1;
    assert |q.pointTypes| == ContourStart(p.contourInfo, c2) - ContourStart(p.contourInfo, c1);
    SubPathStart(p, c1, c2, c2 - c1);
  }

  lemma SubPathContourAt(p: PathValue, c1: nat, c2: nat, c: nat)
    requires Wf(p) && c1 <= c2 <= |p.contourInfo| && c < c2 - c1
    ensures Wf(SubPath(p, c1, c2))
    ensures GetContourValue(SubPath(p, c1, c2), c) == GetContourValue(p, c1 + c)
  {
    SubPathWf(p, c1, c2);
    var s1 := ContourStart(p.contourInfo, c1);
    var s2 := ContourStart(p.contourInfo, c2);
    SubPathStart(p, c1, c2, c);
    ContourBounds(p, c1 + c);
    ContourStartMonotone(p.contourInfo, c1, c1 + c);
    ContourStartMonotone(p.contourInfo, c1 + c + 1, c2);
    ContourStartBounds(p, c2);
    var s := ContourStart(p.contourInfo, c1 + c);
    var e := p.contourInfo[c1 + c].endPoint + 1;
    SliceOfSlice(p.coordinates, 2 * s1, 2 * s2, 2 * (s - s1), 2 * (e - s1));
    SliceOfSlice(p.pointTypes, s1, s2, s - s1, e - s1);
  }

  /** Contours `c1..c2` cut out of a path form a well-formed path listing exactly those contours. */
  lemma SubPathContours(p: PathValue, c1: nat, c2: nat)
    requires Wf(p) && c1 <= c2 <= |p.contourInfo|
    ensures Wf(SubPath(p, c1, c2))
    ensures Contours(SubPath(p, c1, c2)) == Contours(p)[c1..c2]
  {
    SubPathWf(p, c1, c2);
    var q := SubPath(p, c1, c2);
    forall c | 0 <= c < |q.contourInfo| ensures Contours(q)[c] == Contours(p)[c1..c2][c] {
      SubPathContourAt(p, c1, c2, c);
    }
  }

  /** Adjacent cut-outs concatenate to the larger cut-out. */
  lemma SubPathSplit(p: PathValue, a: nat, b: nat, c: nat)
    requires Wf(p) && a <= b <= c <= |p.contourInfo|
    ensures ConcatValue(SubPath(p, a, b), SubPath(p, b, c)) == SubPath(p, a, c)
  {
    ContourStartBounds(p, a);
    ContourStartBounds(p, c);
    ContourStartMonotone(p.contourInfo, a, b);
    ContourStartMonotone(p.contourInfo, b, c);
    var sa := ContourStart(p.contourInfo, a);
    var sb := ContourStart(p.contourInfo, b);
    var sc := ContourStart(p.contourInfo, c);
    assert p.coordinates[2 * sa..2 * sb] + p.coordinates[2 * sb..2 * sc] == p.coordinates[2 * sa..2 * sc];
    assert p.pointTypes[sa..sb] + p.pointTypes[sb..sc] == p.pointTypes[sa..sc];
    var x := Shift(p.contourInfo[a..b], -sa) + Shift(Shift(p.contourInfo[b..c], -sb), sb - sa);
    var y := Shift(p.contourInfo[a..c], -sa);
    assert |x| == |y|;
    forall i | 0 <= i < |x| ensures x[i] == y[i] {
      if i < b - a {
        assert x[i] == Shift(p.contourInfo[a..b], -sa)[i];
      } else {
        assert x[i] == Shift(Shift(p.contourInfo[b..c], -sb), sb - sa)[i - (b - a)];
      }
    }
  }

  lemma SubPathWhole(p: PathValue)
    requires Wf(p)
    ensures SubPath(p, 0, |p.contourInfo|) == p
  {
    assert p.coordinates[0..2 * |p.pointTypes|] == p.coordinates;
    assert p.contourInfo[0..|p.contourInfo|] == p.contourInfo;
  }

  lemma SubPathEmpty(p: PathValue, c: nat)
    requires Wf(p) && c <= |p.contourInfo|
    ensures SubPath(p, c, c) == EmptyPath()
  {
    ContourStartBounds(p, c);
  }

  /** One contour cut out of a path is the single-contour path of `getContour`'s result. */
  lemma SubPathSingle(p: PathValue, c: nat)
    requires Wf(p) && c < |p.contourInfo|
    ensures SubPath(p, c, c + 1) == SinglePath(GetContourValue(p, c))
  {
    ContourBounds(p, c);
  }

  lemma {:induction false} FlattenContours(cs: seq<PackedContour>)
    requires forall k :: k in cs ==> WfContour(k)
    ensures Wf(Flatten(cs)) && Contours(Flatten(cs)) == cs
  {
    if |cs| > 0 {
      var init := cs[..|cs| - 1];
      FlattenContours(init);
      SinglePathContours(cs[|cs| - 1]);
      ConcatContours(Flatten(init), SinglePath(cs[|cs| - 1]));
      assert init + [cs[|cs| - 1]] == cs;
    }
  }

  lemma {:induction false} FlattenPrefix(p: PathValue, j: nat)
    requires Wf(p) && j <= |p.contourInfo|
    ensures Flatten(Contours(p)[..j]) == SubPath(p, 0, j)
  {
    if j == 0 {
      SubPathEmpty(p, 0);
    } else {
      var cs := Contours(p)[..j];
      assert cs[..|cs| - 1] == Contours(p)[..j - 1];
      FlattenPrefix(p, j - 1);
      SubPathSingle(p, j - 1);
      SubPathSplit(p, 0, j - 1, j);
    }
  }

  /** Flattening one more contour appends that contour's path. */
  lemma FlattenSnoc(cs: seq<PackedContour>, i: nat)
    requires i < |cs|
    ensures Flatten(cs[..i + 1]) == ConcatValue(Flatten(cs[..i]), SinglePath(cs[i]))
  {
    assert cs[..i + 1][..i] == cs[..i];
  }

  /** A well-formed path is rebuilt exactly from its list of contours. */
  lemma FlattenOfContours(p: PathValue)
    requires Wf(p)
    ensures Flatten(Contours(p)) == p
  {
    FlattenPrefix(p, |p.contourInfo|);
    assert Contours(p)[..|p.contourInfo|] == Contours(p);
    SubPathWhole(p);
  }

  /** A well-formed path is determined by its list of contours. */
  lemma ContoursDetermine(p: PathValue, q: PathValue)
    requires Wf(p) && Wf(q) && Contours(p) == Contours(q)
    ensures p == q
  {
    FlattenOfContours(p);
    FlattenOfContours(q);
  }

  //
  // Contour index arithmetic
  //

  /**
   * `_normalizeContourIndex`: a negative index counts from the end; the
   * index then must address a contour, or the slot after the last one
   * when inserting.
   */
  function NormalizeContourIndex(numContours: nat, contourIndex: int, forInsert: bool): (r: Result<nat, PathError>)
    ensures r.Ok? <==> -(numContours as int) <= contourIndex < numContours + (if forInsert then 1 else 0)
    ensures r.Ok? ==> (r.value < numContours + (if forInsert then 1 else 0)
                       && (r.value == contourIndex || r.value == contourIndex + numContours))
    ensures r.Err? ==> r.error == ContourIndexOutOfBounds(contourIndex)
  {
    var c := if contourIndex < 0 then contourIndex + numContours else contourIndex;
    if c < 0 || c >= numContours + (if forInsert then 1 else 0) then
      Err(ContourIndexOutOfBounds(contourIndex))
    else
      Ok(c)
  }

  /**
   * `getAbsolutePointIndex`: the contour index is used as given (a
   * contour that does not exist raises a `TypeError`); a negative point
   * index counts from the end of the contour.
   */
  function AbsolutePointIndex(p: PathValue, contourIndex: int, contourPointIndex: int, forInsert: bool): (r: Result<nat, PathError>)
    requires Wf(p)
    ensures r.Ok? ==> (0 <= contourIndex < |p.contourInfo|
                       && ContourStart(p.contourInfo, contourIndex) <= r.value
                       && r.value <= p.contourInfo[contourIndex].endPoint + (if forInsert then 1 else 0))
    ensures !(0 <= contourIndex < |p.contourInfo|) ==> r == Err(NoSuchContour(contourIndex))
  {
    if !(0 <= contourIndex < |p.contourInfo|) then
      Err(NoSuchContour(contourIndex))
    else
      ContourBounds(p, contourIndex);
      var start := ContourStart(p.contourInfo, contourIndex);
      var numPoints := p.contourInfo[contourIndex].endPoint + 1 - start;
      var k := if contourPointIndex < 0 then contourPointIndex + numPoints else contourPointIndex;
      if k < 0 || k >= numPoints + (if forInsert then 1 else 0) then
        Err(ContourPointIndexOutOfBounds(contourPointIndex))
      else
        Ok(start + k)
  }

  /** The contour point index `AbsolutePointIndex` accepts are exactly those of the contour's slots. */
  lemma AbsolutePointIndexRange(p: PathValue, c: nat, k: int, forInsert: bool)
    requires Wf(p) && c < |p.contourInfo|
    ensures var n := |GetContourValue(p, c).pointTypes|;
            var r := AbsolutePointIndex(p, c, k, forInsert);
            && (r.Ok? <==> -n <= k < n + (if forInsert then 1 else 0))
            && (r.Ok? ==> r.value == ContourStart(p.contourInfo, c) + (if k < 0 then k + n else k))
            && (r.Err? ==> r.error == ContourPointIndexOutOfBounds(k))
  {
  }

  //
  // Points
  //

  /** `packPointType`: a truthy type is an off-curve kind; otherwise the smooth flag on an on-curve point. */
  function PackPointType(pointType: Option<string>, smooth: bool): (t: int)
    ensures IsCanonicalType(t)
    ensures MaskedType(t) == ON_CURVE <==> !(pointType.Some? && pointType.value != "")
    ensures HasSmoothFlag(t) <==> !(pointType.Some? && pointType.value != "") && smooth
  {
    if pointType.Some? && pointType.value != "" then
      (if pointType.value == POINT_TYPE_CUBIC then OFF_CURVE_CUBIC else OFF_CURVE_QUAD)
    else if smooth then
      ON_CURVE + SMOOTH_FLAG
    else
      ON_CURVE
  }

  /** The point `getPoint` builds from a coordinate pair and a packed type. */
  function UnpackPoint(x: real, y: real, t: int): (pt: Point)
    ensures pt.x == x && pt.y == y
    ensures pt.pointType.Some? <==> MaskedType(t) != ON_CURVE
    ensures pt.smooth <==> MaskedType(t) == ON_CURVE && HasSmoothFlag(t)
  {
    var m := MaskedType(t);
    if m != ON_CURVE then
      Point(x, y, Some(if m == OFF_CURVE_CUBIC then POINT_TYPE_CUBIC else POINT_TYPE_QUAD), false)
    else
      Point(x, y, None, HasSmoothFlag(t))
  }

  /** A point `packPointType` and `getPoint` carry through unchanged. */
  predicate IsCanonicalPoint(pt: Point) {
    pt.pointType == None || (pt.pointType in {Some(POINT_TYPE_QUAD), Some(POINT_TYPE_CUBIC)} && !pt.smooth)
  }

  /** Packing then unpacking a canonical type gives back the type. */
  lemma PackUnpackType(x: real, y: real, t: int)
    requires IsCanonicalType(t)
    ensures var pt := UnpackPoint(x, y, t); PackPointType(pt.pointType, pt.smooth) == t
  {
  }

  /** Unpacking a packed canonical point gives back the point. */
  lemma UnpackPackPoint(pt: Point)
    requires IsCanonicalPoint(pt)
    ensures UnpackPoint(pt.x, pt.y, PackPointType(pt.pointType, pt.smooth)) == pt
  {
  }

  /** `getPoint`: `None` when the index addresses no point. */
  function GetPointValue(p: PathValue, i: int): (r: Option<Point>)
    requires |p.coordinates| == 2 * |p.pointTypes|
    ensures r.Some? <==> 0 <= i < |p.pointTypes|
    ensures r.Some? ==> r.value.x == p.coordinates[2 * i] && r.value.y == p.coordinates[2 * i + 1]
  {
    if 0 <= i < |p.pointTypes| then
      Some(UnpackPoint(p.coordinates[2 * i], p.coordinates[2 * i + 1], p.pointTypes[i]))
    else
      None
  }

  /** Point `i` of a packed contour. */
  function ContourPoint(k: PackedContour, i: nat): Point
    requires WfContour(k) && i < |k.pointTypes|
  {
    UnpackPoint(k.coordinates[2 * i], k.coordinates[2 * i + 1], k.pointTypes[i])
  }

  /** The unpacked form of a packed contour. */
  function UnpackContour(k: PackedContour): (u: UnpackedContour)
    requires WfContour(k)
    ensures |u.points| == |k.pointTypes| && u.isClosed == k.isClosed
  {
    UnpackedContour(seq(|k.pointTypes|, i requires 0 <= i < |k.pointTypes| => ContourPoint(k, i)), k.isClosed)
  }

  /** The coordinates of points, interleaved in point order. */
  function InterleavedCoordinates(points: seq<Point>): (r: seq<real>)
    ensures |r| == 2 * |points|
  {
    if |points| == 0 then []
    else InterleavedCoordinates(points[..|points| - 1]) + [points[|points| - 1].x, points[|points| - 1].y]
  }

  lemma {:induction false} InterleavedCoordinatesAt(points: seq<Point>, i: nat)
    requires i < |points|
    ensures InterleavedCoordinates(points)[2 * i] == points[i].x
    ensures InterleavedCoordinates(points)[2 * i + 1] == points[i].y
  {
    if i < |points| - 1 {
      InterleavedCoordinatesAt(points[..|points| - 1], i);
    }
  }

  /** What `packContour` computes. */
  function PackedOf(u: UnpackedContour): (k: PackedContour)
    ensures WfContour(k) && |k.pointTypes| == |u.points| && k.isClosed == u.isClosed
  {
    PackedContour(InterleavedCoordinates(u.points),
                  seq(|u.points|, i requires 0 <= i < |u.points| => PackPointType(u.points[i].pointType, u.points[i].smooth)),
                  u.isClosed)
  }

  predicate HasCanonicalTypes(k: PackedContour) {
    forall i :: 0 <= i < |k.pointTypes| ==> IsCanonicalType(k.pointTypes[i])
  }

  /** Two coordinate lists of `n` points agree when every point's two coordinates do. */
  lemma PairwiseEqual(a: seq<real>, b: seq<real>, n: nat)
    requires |a| == 2 * n && |b| == 2 * n
    requires forall i :: 0 <= i < n ==> a[2 * i] == b[2 * i] && a[2 * i + 1] == b[2 * i + 1]
    ensures a == b
  {
    forall j | 0 <= j < 2 * n ensures a[j] == b[j] {
      var i := j / 2;
      assert j == 2 * i || j == 2 * i + 1;
    }
  }

  /** Packing an unpacked contour restores a contour with canonical types. */
  lemma PackUnpackContour(k: PackedContour)
    requires WfContour(k) && HasCanonicalTypes(k)
    ensures PackedOf(UnpackContour(k)) == k
  {
    var u := UnpackContour(k);
    var r := PackedOf(u);
    forall i | 0 <= i < |k.pointTypes|
      ensures r.coordinates[2 * i] == k.coordinates[2 * i]
      ensures r.coordinates[2 * i + 1] == k.coordinates[2 * i + 1]
      ensures r.pointTypes[i] == k.pointTypes[i]
    {
      InterleavedCoordinatesAt(u.points, i);
      PackUnpackType(k.coordinates[2 * i], k.coordinates[2 * i + 1], k.pointTypes[i]);
    }
    PairwiseEqual(r.coordinates, k.coordinates, |k.pointTypes|);
  }

  /** Unpacking a packed contour of canonical points restores it. */
  lemma UnpackPackContour(u: UnpackedContour)
    requires forall i :: 0 <= i < |u.points| ==> IsCanonicalPoint(u.points[i])
    ensures UnpackContour(PackedOf(u)) == u
  {
    var k := PackedOf(u);
    forall i | 0 <= i < |u.points| ensures ContourPoint(k, i) == u.points[i] {
      InterleavedCoordinatesAt(u.points, i);
      UnpackPackPoint(u.points[i]);
    }
  }

  /** `unpackedContours`: every contour, unpacked. */
  function UnpackedContours(p: PathValue): (us: seq<UnpackedContour>)
    requires Wf(p)
    ensures |us| == |p.contourInfo|
  {
    seq(|p.contourInfo|, c requires 0 <= c < |p.contourInfo| => UnpackContour(Contours(p)[c]))
  }

  predicate HasCanonicalPointTypes(p: PathValue) {
    forall i :: 0 <= i < |p.pointTypes| ==> IsCanonicalType(p.pointTypes[i])
  }

  /** The path `fromUnpackedContours` builds. */
  function FromUnpackedContoursValue(us: seq<UnpackedContour>): PathValue {
    Flatten(seq(|us|, c requires 0 <= c < |us| => PackedOf(us[c])))
  }

  /**
   * `fromUnpackedContours(p.unpackedContours())` rebuilds `p` exactly when
   * every point type of `p` is one the API produces.
   */
  lemma UnpackedContoursRoundTrip(p: PathValue)
    requires Wf(p)
    ensures FromUnpackedContoursValue(UnpackedContours(p)) == p <==> HasCanonicalPointTypes(p)
  {
    if HasCanonicalPointTypes(p) {
      CanonicalRoundTrip(p);
    } else {
      RebuiltIsCanonical(UnpackedContours(p));
    }
  }

  /** The path `fromUnpackedContours` builds has only the point types the API produces. */
  lemma RebuiltIsCanonical(us: seq<UnpackedContour>)
    ensures HasCanonicalPointTypes(FromUnpackedContoursValue(us))
  {
    var packed := seq(|us|, c requires 0 <= c < |us| => PackedOf(us[c]));
    forall c | 0 <= c < |packed|
      ensures HasCanonicalTypes(packed[c])
    {
    }
    FlattenCanonical(packed);
  }

  lemma {:induction false} FlattenCanonical(cs: seq<PackedContour>)
    requires forall c | 0 <= c < |cs| :: HasCanonicalTypes(cs[c])
    ensures HasCanonicalPointTypes(Flatten(cs))
    decreases |cs|
  {
    if |cs| > 0 {
      var front := cs[..|cs| - 1];
      var last := cs[|cs| - 1];
      FlattenCanonical(front);
      var types := Flatten(cs).pointTypes;
      assert types == Flatten(front).pointTypes + last.pointTypes;
      forall i | 0 <= i < |types|
        ensures IsCanonicalType(types[i])
      {
        if i >= |Flatten(front).pointTypes| {
          assert types[i] == last.pointTypes[i - |Flatten(front).pointTypes|];
        }
      }
    }
  }

  lemma CanonicalRoundTrip(p: PathValue)
    requires Wf(p) && HasCanonicalPointTypes(p)
    ensures FromUnpackedContoursValue(UnpackedContours(p)) == p
  {
    var us := UnpackedContours(p);
    var cs := Contours(p);
    var packed := seq(|us|, c requires 0 <= c < |us| => PackedOf(us[c]));
    forall c | 0 <= c < |cs| ensures packed[c] == cs[c] {
      ContourBounds(p, c);
      var k := cs[c];
      var s := ContourStart(p.contourInfo, c);
      assert forall i :: 0 <= i < |k.pointTypes| ==> k.pointTypes[i] == p.pointTypes[s + i];
      PackUnpackContour(k);
    }
    assert packed == cs;
    FlattenOfContours(p);
  }

  //
  // The edits, as the class performs them, and what they do to the contour list
  //

  /** `_replacePoints(start, count, coordinates, pointTypes)`. */
  function ReplacePoints(p: PathValue, start: nat, count: nat, coordinates: seq<real>, pointTypes: seq<int>): PathValue
    requires |p.coordinates| == 2 * |p.pointTypes| && start + count <= |p.pointTypes|
  {
    PathValue(p.coordinates[..2 * start] + coordinates + p.coordinates[2 * (start + count)..],
              p.pointTypes[..start] + pointTypes + p.pointTypes[start + count..],
              p.contourInfo)
  }

  /** `setContour` on a normalized index. */
  function SetContourValue(p: PathValue, c: nat, k: PackedContour): PathValue
    requires Wf(p) && c < |p.contourInfo|
  {
    ContourBounds(p, c);
    var start := ContourStart(p.contourInfo, c);
    var numOldPoints := p.contourInfo[c].endPoint + 1 - start;
    var q := ReplacePoints(p, start, numOldPoints, k.coordinates, k.pointTypes);
    var ci := MoveEndPoints(q.contourInfo, c, |k.pointTypes| - numOldPoints);
    q.(contourInfo := ci[c := ci[c].(isClosed := k.isClosed)])
  }

  /** `insertContour` on a normalized index. */
  function InsertContourValue(p: PathValue, c: nat, k: PackedContour): PathValue
    requires Wf(p) && c <= |p.contourInfo|
  {
    ContourStartBounds(p, c);
    var start := ContourStart(p.contourInfo, c);
    var q := ReplacePoints(p, start, 0, k.coordinates, k.pointTypes);
    var ci := InsertAt(q.contourInfo, c, ContourInfo(start - 1, k.isClosed));
    q.(contourInfo := MoveEndPoints(ci, c, |k.pointTypes|))
  }

  /** `deleteContour` on a normalized index. */
  function DeleteContourValue(p: PathValue, c: nat): PathValue
    requires Wf(p) && c < |p.contourInfo|
  {
    ContourBounds(p, c);
    var start := ContourStart(p.contourInfo, c);
    var numPoints := p.contourInfo[c].endPoint + 1 - start;
    var q := ReplacePoints(p, start, numPoints, [], []);
    q.(contourInfo := MoveEndPoints(RemoveAt(q.contourInfo, c), c, -numPoints))
  }

  /** `_insertPoint`: point `i` of contour `c` inserted at absolute index `i`. */
  function InsertPointValue(p: PathValue, c: nat, i: nat, x: real, y: real, t: int): PathValue
    requires Wf(p) && c < |p.contourInfo|
    requires ContourStart(p.contourInfo, c) <= i <= p.contourInfo[c].endPoint + 1
  {
    ContourBounds(p, c);
    PathValue(p.coordinates[..2 * i] + [x, y] + p.coordinates[2 * i..],
              InsertAt(p.pointTypes, i, t),
              MoveEndPoints(p.contourInfo, c, 1))
  }

  /** `deletePoint` once the absolute index `i` is known. */
  function DeletePointValue(p: PathValue, c: nat, i: nat): PathValue
    requires Wf(p) && c < |p.contourInfo|
    requires ContourStart(p.contourInfo, c) <= i <= p.contourInfo[c].endPoint
  {
    ContourBounds(p, c);
    PathValue(p.coordinates[..2 * i] + p.coordinates[2 * i + 2..],
              RemoveAt(p.pointTypes, i),
              MoveEndPoints(p.contourInfo, c, -1))
  }

  /** A packed contour with a point inserted at contour index `j`. */
  function InsertIntoContour(k: PackedContour, j: nat, x: real, y: real, t: int): PackedContour
    requires WfContour(k) && j <= |k.pointTypes|
  {
    PackedContour(k.coordinates[..2 * j] + [x, y] + k.coordinates[2 * j..], InsertAt(k.pointTypes, j, t), k.isClosed)
  }

  /** A packed contour with the point at contour index `j` removed. */
  function RemoveFromContour(k: PackedContour, j: nat): PackedContour
    requires WfContour(k) && j < |k.pointTypes|
  {
    PackedContour(k.coordinates[..2 * j] + k.coordinates[2 * j + 2..], RemoveAt(k.pointTypes, j), k.isClosed)
  }

  /** Setting contour `c`, which holds the points `s..e`, puts the new contour's points in place of those. */
  lemma SetContourSlices(p: PathValue, c: nat, k: PackedContour, s: nat, e: nat)
    requires Wf(p) && c < |p.contourInfo|
    requires ContourStart(p.contourInfo, c) == s && p.contourInfo[c].endPoint + 1 == e
    ensures s <= e <= |p.pointTypes|
    ensures SetContourValue(p, c, k).coordinates == p.coordinates[..2 * s] + k.coordinates + p.coordinates[2 * e..]
    ensures SetContourValue(p, c, k).pointTypes == p.pointTypes[..s] + k.pointTypes + p.pointTypes[e..]
  {
    ContourBounds(p, c);
  }

  lemma SetContourIsConcatPoints(p: PathValue, c: nat, k: PackedContour)
    requires Wf(p) && c < |p.contourInfo|
    ensures var rhs := ConcatValue(ConcatValue(SubPath(p, 0, c), SinglePath(k)), SubPath(p, c + 1, |p.contourInfo|));
            SetContourValue(p, c, k).coordinates == rhs.coordinates && SetContourValue(p, c, k).pointTypes == rhs.pointTypes
  {
    ContourBounds(p, c);
    ContourStartBounds(p, |p.contourInfo|);
  }

  lemma SetContourIsConcatInfo(p: PathValue, c: nat, k: PackedContour)
    requires Wf(p) && c < |p.contourInfo|
    ensures SetContourValue(p, c, k).contourInfo
         == ConcatValue(ConcatValue(SubPath(p, 0, c), SinglePath(k)), SubPath(p, c + 1, |p.contourInfo|)).contourInfo
  {
    var n := |p.contourInfo|;
    ContourBounds(p, c);
    var s := ContourStart(p.contourInfo, c);
    var m := |k.pointTypes|;
    var lhs := SetContourValue(p, c, k).contourInfo;
    var rhs := ConcatValue(ConcatValue(SubPath(p, 0, c), SinglePath(k)), SubPath(p, c + 1, n)).contourInfo;
    assert |lhs| == |rhs|;
    forall i | 0 <= i < n ensures lhs[i] == rhs[i] {
      if i > c {
        assert rhs[i] == Shift(SubPath(p, c + 1, n).contourInfo, s + m)[i - c - 1];
      }
    }
  }

  /** `setContour` is cutting the path around contour `c` and putting `k` in between. */
  lemma SetContourIsConcat(p: PathValue, c: nat, k: PackedContour)
    requires Wf(p) && c < |p.contourInfo|
    ensures SetContourValue(p, c, k)
         == ConcatValue(ConcatValue(SubPath(p, 0, c), SinglePath(k)), SubPath(p, c + 1, |p.contourInfo|))
  {
    SetContourIsConcatPoints(p, c, k);
    SetContourIsConcatInfo(p, c, k);
  }

  lemma InsertContourIsConcatPoints(p: PathValue, c: nat, k: PackedContour)
    requires Wf(p) && c <= |p.contourInfo|
    ensures var rhs := ConcatValue(ConcatValue(SubPath(p, 0, c), SinglePath(k)), SubPath(p, c, |p.contourInfo|));
            InsertContourValue(p, c, k).coordinates == rhs.coordinates && InsertContourValue(p, c, k).pointTypes == rhs.pointTypes
  {
    ContourStartBounds(p, c);
    ContourStartBounds(p, |p.contourInfo|);
  }

  lemma InsertContourIsConcatInfo(p: PathValue, c: nat, k: PackedContour)
    requires Wf(p) && c <= |p.contourInfo|
    ensures InsertContourValue(p, c, k).contourInfo
         == ConcatValue(ConcatValue(SubPath(p, 0, c), SinglePath(k)), SubPath(p, c, |p.contourInfo|)).contourInfo
  {
    var n := |p.contourInfo|;
    ContourStartBounds(p, c);
    var s := ContourStart(p.contourInfo, c);
    var m := |k.pointTypes|;
    var lhs := InsertContourValue(p, c, k).contourInfo;
    var rhs := ConcatValue(ConcatValue(SubPath(p, 0, c), SinglePath(k)), SubPath(p, c, n)).contourInfo;
    assert |lhs| == |rhs|;
    forall i | 0 <= i < n + 1 ensures lhs[i] == rhs[i] {
      if i > c {
        assert rhs[i] == Shift(SubPath(p, c, n).contourInfo, s + m)[i - c - 1];
      }
    }
  }

  /** `insertContour` is cutting the path before contour `c` and putting `k` in between. */
  lemma InsertContourIsConcat(p: PathValue, c: nat, k: PackedContour)
    requires Wf(p) && c <= |p.contourInfo|
    ensures InsertContourValue(p, c, k)
         == ConcatValue(ConcatValue(SubPath(p, 0, c), SinglePath(k)), SubPath(p, c, |p.contourInfo|))
  {
    InsertContourIsConcatPoints(p, c, k);
    InsertContourIsConcatInfo(p, c, k);
  }

  lemma DeleteContourIsConcatPoints(p: PathValue, c: nat)
    requires Wf(p) && c < |p.contourInfo|
    ensures var rhs := ConcatValue(SubPath(p, 0, c), SubPath(p, c + 1, |p.contourInfo|));
            DeleteContourValue(p, c).coordinates == rhs.coordinates && DeleteContourValue(p, c).pointTypes == rhs.pointTypes
  {
    ContourBounds(p, c);
    ContourStartBounds(p, |p.contourInfo|);
  }

  lemma DeleteContourIsConcatInfo(p: PathValue, c: nat)
    requires Wf(p) && c < |p.contourInfo|
    ensures DeleteContourValue(p, c).contourInfo
         == ConcatValue(SubPath(p, 0, c), SubPath(p, c + 1, |p.contourInfo|)).contourInfo
  {
    var n := |p.contourInfo|;
    ContourBounds(p, c);
    var s := ContourStart(p.contourInfo, c);
    var lhs := DeleteContourValue(p, c).contourInfo;
    var rhs := ConcatValue(SubPath(p, 0, c), SubPath(p, c + 1, n)).contourInfo;
    assert |lhs| == |rhs|;
    forall i | 0 <= i < n - 1 ensures lhs[i] == rhs[i] {
      if i >= c {
        assert rhs[i] == Shift(SubPath(p, c + 1, n).contourInfo, s)[i - c];
      }
    }
  }

  /** `deleteContour` is cutting the path around contour `c` and joining the two sides. */
  lemma DeleteContourIsConcat(p: PathValue, c: nat)
    requires Wf(p) && c < |p.contourInfo|
    ensures DeleteContourValue(p, c) == ConcatValue(SubPath(p, 0, c), SubPath(p, c + 1, |p.contourInfo|))
  {
    DeleteContourIsConcatPoints(p, c);
    DeleteContourIsConcatInfo(p, c);
  }

  /** The contour lists of three concatenated paths. */
  lemma Concat3Contours(a: PathValue, b: PathValue, d: PathValue)
    requires Wf(a) && Wf(b) && Wf(d)
    ensures Wf(ConcatValue(ConcatValue(a, b), d))
    ensures Contours(ConcatValue(ConcatValue(a, b), d)) == Contours(a) + Contours(b) + Contours(d)
  {
    ConcatContours(a, b);
    ConcatContours(ConcatValue(a, b), d);
  }

  /** `setContour` keeps the integrity condition exactly when the new contour is well formed. */
  lemma SetContourWf(p: PathValue, c: nat, k: PackedContour)
    requires Wf(p) && c < |p.contourInfo|
    ensures Wf(SetContourValue(p, c, k)) <==> WfContour(k)
  {
    SetContourIsConcat(p, c, k);
    if WfContour(k) {
      SubPathWf(p, 0, c);
      SubPathWf(p, c + 1, |p.contourInfo|);
      SinglePathContours(k);
      ConcatWf(SubPath(p, 0, c), SinglePath(k));
      ConcatWf(ConcatValue(SubPath(p, 0, c), SinglePath(k)), SubPath(p, c + 1, |p.contourInfo|));
    } else {
      ContourBounds(p, c);
    }
  }

  lemma SetContourListed(p: PathValue, c: nat, k: PackedContour)
    requires Wf(p) && c < |p.contourInfo| && WfContour(k)
    ensures Wf(SetContourValue(p, c, k))
    ensures Contours(SetContourValue(p, c, k)) == Contours(p)[..c] + [k] + Contours(p)[c + 1..]
  {
    var n := |p.contourInfo|;
    SetContourIsConcat(p, c, k);
    SubPathContours(p, 0, c);
    SubPathContours(p, c + 1, n);
    SinglePathContours(k);
    Concat3Contours(SubPath(p, 0, c), SinglePath(k), SubPath(p, c + 1, n));
  }

  /** `setContour` replaces contour `c` in the contour list and keeps the integrity condition exactly when the new contour is well formed. */
  lemma SetContourContours(p: PathValue, c: nat, k: PackedContour)
    requires Wf(p) && c < |p.contourInfo|
    ensures Wf(SetContourValue(p, c, k)) <==> WfContour(k)
    ensures WfContour(k) ==> Contours(SetContourValue(p, c, k)) == Contours(p)[c := k]
  {
    SetContourWf(p, c, k);
    if WfContour(k) {
      SetContourListed(p, c, k);
      assert Contours(p)[..c] + [k] + Contours(p)[c + 1..] == Contours(p)[c := k];
    }
  }

  /** `insertContour` inserts `k` into the contour list at `c`. */
  lemma InsertContourContours(p: PathValue, c: nat, k: PackedContour)
    requires Wf(p) && c <= |p.contourInfo|
    ensures Wf(InsertContourValue(p, c, k)) <==> WfContour(k)
    ensures WfContour(k) ==> Contours(InsertContourValue(p, c, k)) == InsertAt(Contours(p), c, k)
  {
    var n := |p.contourInfo|;
    InsertContourIsConcat(p, c, k);
    if WfContour(k) {
      SubPathContours(p, 0, c);
      SubPathContours(p, c, n);
      SinglePathContours(k);
      Concat3Contours(SubPath(p, 0, c), SinglePath(k), SubPath(p, c, n));
    } else {
      ContourStartBounds(p, c);
    }
  }

  /** Two paths holding the contours before and after `c` concatenate to the list without contour `c`. */
  lemma ConcatAround(cs: seq<PackedContour>, c: nat, a: PathValue, b: PathValue)
    requires c < |cs| && Wf(a) && Wf(b) && Contours(a) == cs[..c] && Contours(b) == cs[c + 1..]
    ensures Wf(ConcatValue(a, b)) && Contours(ConcatValue(a, b)) == RemoveAt(cs, c)
  {
    ConcatContours(a, b);
  }

  /** `deleteContour` removes contour `c` from the contour list. */
  lemma DeleteContourContours(p: PathValue, c: nat)
    requires Wf(p) && c < |p.contourInfo|
    ensures Wf(DeleteContourValue(p, c))
    ensures Contours(DeleteContourValue(p, c)) == RemoveAt(Contours(p), c)
  {
    var n := |p.contourInfo|;
    DeleteContourIsConcat(p, c);
    SubPathContours(p, 0, c);
    SubPathContours(p, c + 1, n);
    ConcatAround(Contours(p), c, SubPath(p, 0, c), SubPath(p, c + 1, n));
  }

  lemma InsertPointSameCoordinates(p: PathValue, c: nat, i: nat, x: real, y: real, t: int)
    requires Wf(p) && c < |p.contourInfo|
    requires ContourStart(p.contourInfo, c) <= i <= p.contourInfo[c].endPoint + 1
    ensures InsertPointValue(p, c, i, x, y, t).coordinates
         == SetContourValue(p, c, InsertIntoContour(GetContourValue(p, c), i - ContourStart(p.contourInfo, c), x, y, t)).coordinates
  {
    ContourBounds(p, c);
    var s := ContourStart(p.contourInfo, c);
    var e := p.contourInfo[c].endPoint + 1;
    SpliceInsertWithin(p.coordinates, 2 * s, 2 * i, 2 * e, [x, y]);
  }

  lemma InsertPointSameTypes(p: PathValue, c: nat, i: nat, x: real, y: real, t: int)
    requires Wf(p) && c < |p.contourInfo|
    requires ContourStart(p.contourInfo, c) <= i <= p.contourInfo[c].endPoint + 1
    ensures InsertPointValue(p, c, i, x, y, t).pointTypes
         == SetContourValue(p, c, InsertIntoContour(GetContourValue(p, c), i - ContourStart(p.contourInfo, c), x, y, t)).pointTypes
  {
    ContourBounds(p, c);
    var s := ContourStart(p.contourInfo, c);
    var e := p.contourInfo[c].endPoint + 1;
    SpliceInsertWithin(p.pointTypes, s, i, e, [t]);
  }

  lemma InsertPointSameInfo(p: PathValue, c: nat, i: nat, x: real, y: real, t: int)
    requires Wf(p) && c < |p.contourInfo|
    requires ContourStart(p.contourInfo, c) <= i <= p.contourInfo[c].endPoint + 1
    ensures InsertPointValue(p, c, i, x, y, t).contourInfo
         == SetContourValue(p, c, InsertIntoContour(GetContourValue(p, c), i - ContourStart(p.contourInfo, c), x, y, t)).contourInfo
  {
    ContourBounds(p, c);
  }

  /** Inserting a point is setting its contour to the contour with the point inserted. */
  lemma InsertPointIsSetContour(p: PathValue, c: nat, i: nat, x: real, y: real, t: int)
    requires Wf(p) && c < |p.contourInfo|
    requires ContourStart(p.contourInfo, c) <= i <= p.contourInfo[c].endPoint + 1
    ensures InsertPointValue(p, c, i, x, y, t)
         == SetContourValue(p, c, InsertIntoContour(GetContourValue(p, c), i - ContourStart(p.contourInfo, c), x, y, t))
  {
    InsertPointSameCoordinates(p, c, i, x, y, t);
    InsertPointSameTypes(p, c, i, x, y, t);
    InsertPointSameInfo(p, c, i, x, y, t);
  }

  lemma DeletePointSameCoordinates(p: PathValue, c: nat, i: nat)
    requires Wf(p) && c < |p.contourInfo|
    requires ContourStart(p.contourInfo, c) <= i <= p.contourInfo[c].endPoint
    ensures DeletePointValue(p, c, i).coordinates
         == SetContourValue(p, c, RemoveFromContour(GetContourValue(p, c), i - ContourStart(p.contourInfo, c))).coordinates
  {
    var s := ContourStart(p.contourInfo, c);
    var e := p.contourInfo[c].endPoint + 1;
    ContourSlices(p, c, s, e);
    var k := RemoveFromContour(GetContourValue(p, c), i - s);
    SetContourSlices(p, c, k, s, e);
    var kc := p.coordinates[2 * s..2 * e];
    assert k.coordinates == kc[..2 * i - 2 * s] + kc[2 * i - 2 * s + 2..];
    SpliceRemoveWithin(p.coordinates, 2 * s, 2 * i, 2, 2 * e);
    calc {
      DeletePointValue(p, c, i).coordinates;
      p.coordinates[..2 * i] + p.coordinates[2 * i + 2..];
      p.coordinates[..2 * s] + k.coordinates + p.coordinates[2 * e..];
      SetContourValue(p, c, k).coordinates;
    }
  }

  lemma DeletePointSameTypes(p: PathValue, c: nat, i: nat)
    requires Wf(p) && c < |p.contourInfo|
    requires ContourStart(p.contourInfo, c) <= i <= p.contourInfo[c].endPoint
    ensures DeletePointValue(p, c, i).pointTypes
         == SetContourValue(p, c, RemoveFromContour(GetContourValue(p, c), i - ContourStart(p.contourInfo, c))).pointTypes
  {
    var s := ContourStart(p.contourInfo, c);
    var e := p.contourInfo[c].endPoint + 1;
    ContourSlices(p, c, s, e);
    SetContourSlices(p, c, RemoveFromContour(GetContourValue(p, c), i - s), s, e);
    SpliceRemoveWithin(p.pointTypes, s, i, 1, e);
  }

  lemma DeletePointSameInfo(p: PathValue, c: nat, i: nat)
    requires Wf(p) && c < |p.contourInfo|
    requires ContourStart(p.contourInfo, c) <= i <= p.contourInfo[c].endPoint
    ensures DeletePointValue(p, c, i).contourInfo
         == SetContourValue(p, c, RemoveFromContour(GetContourValue(p, c), i - ContourStart(p.contourInfo, c))).contourInfo
  {
    ContourBounds(p, c);
  }

  /** Deleting a point is setting its contour to the contour without the point. */
  lemma DeletePointIsSetContour(p: PathValue, c: nat, i: nat)
    requires Wf(p) && c < |p.contourInfo|
    requires ContourStart(p.contourInfo, c) <= i <= p.contourInfo[c].endPoint
    ensures DeletePointValue(p, c, i)
         == SetContourValue(p, c, RemoveFromContour(GetContourValue(p, c), i - ContourStart(p.contourInfo, c)))
  {
    DeletePointSameCoordinates(p, c, i);
    DeletePointSameTypes(p, c, i);
    DeletePointSameInfo(p, c, i);
  }

  /** `insertPoint` inserts the packed point into its contour and changes no other contour. */
  lemma InsertPointContours(p: PathValue, c: nat, i: nat, x: real, y: real, t: int)
    requires Wf(p) && c < |p.contourInfo|
    requires ContourStart(p.contourInfo, c) <= i <= p.contourInfo[c].endPoint + 1
    ensures Wf(InsertPointValue(p, c, i, x, y, t))
    ensures Contours(InsertPointValue(p, c, i, x, y, t))
         == Contours(p)[c := InsertIntoContour(Contours(p)[c], i - ContourStart(p.contourInfo, c), x, y, t)]
  {
    InsertPointIsSetContour(p, c, i, x, y, t);
    SetContourContours(p, c, InsertIntoContour(GetContourValue(p, c), i - ContourStart(p.contourInfo, c), x, y, t));
  }

  /** `deletePoint` removes the point from its contour and changes no other contour. */
  lemma DeletePointContours(p: PathValue, c: nat, i: nat)
    requires Wf(p) && c < |p.contourInfo|
    requires ContourStart(p.contourInfo, c) <= i <= p.contourInfo[c].endPoint
    ensures Wf(DeletePointValue(p, c, i))
    ensures Contours(DeletePointValue(p, c, i))
         == Contours(p)[c := RemoveFromContour(Contours(p)[c], i - ContourStart(p.contourInfo, c))]
  {
    DeletePointIsSetContour(p, c, i);
    SetContourContours(p, c, RemoveFromContour(GetContourValue(p, c), i - ContourStart(p.contourInfo, c)));
  }

  /** Appending a contour is inserting it after the last one. */
  lemma AppendContourIsInsert(p: PathValue, k: PackedContour)
    requires Wf(p)
    ensures InsertContourValue(p, |p.contourInfo|, k) == ConcatValue(p, SinglePath(k))
  {
    InsertContourIsConcat(p, |p.contourInfo|, k);
    SubPathWhole(p);
    SubPathEmpty(p, |p.contourInfo|);
    assert ConcatValue(ConcatValue(p, SinglePath(k)), EmptyPath()) == ConcatValue(p, SinglePath(k));
  }

  //
  // Points set in place and the pen's appends
  //

  /** `setPoint` once the absolute index `i` is known: new coordinates and the packed type. */
  function SetPointValue(p: PathValue, i: nat, pt: Point): PathValue
    requires |p.coordinates| == 2 * |p.pointTypes| && i < |p.pointTypes|
  {
    PathValue(p.coordinates[2 * i := pt.x][2 * i + 1 := pt.y],
              p.pointTypes[i := PackPointType(pt.pointType, pt.smooth)],
              p.contourInfo)
  }

  /** Reading a point back after setting it gives the point (canonical points exactly), and no other point changes. */
  lemma SetPointGetPoint(p: PathValue, i: nat, pt: Point)
    requires |p.coordinates| == 2 * |p.pointTypes| && i < |p.pointTypes|
    ensures Wf(SetPointValue(p, i, pt)) <==> Wf(p)
    ensures GetPointValue(SetPointValue(p, i, pt), i) == Some(UnpackPoint(pt.x, pt.y, PackPointType(pt.pointType, pt.smooth)))
    ensures IsCanonicalPoint(pt) ==> GetPointValue(SetPointValue(p, i, pt), i) == Some(pt)
    ensures forall j :: j != i ==> GetPointValue(SetPointValue(p, i, pt), j) == GetPointValue(p, j)
  {
    if IsCanonicalPoint(pt) {
      UnpackPackPoint(pt);
    }
  }

  /** Point `j` of contour `c` is the path's point at the contour's start plus `j`. */
  lemma ContourPointIsPoint(p: PathValue, c: nat, j: nat)
    requires Wf(p) && c < |p.contourInfo| && j < |GetContourValue(p, c).pointTypes|
    ensures GetPointValue(p, ContourStart(p.contourInfo, c) + j) == Some(ContourPoint(GetContourValue(p, c), j))
  {
    ContourBounds(p, c);
  }

  /** Points read one by one from a contour's slots make up that contour, unpacked. */
  lemma UnpackedFromPoints(p: PathValue, c: nat, points: seq<Point>)
    requires Wf(p) && c < |p.contourInfo|
    requires |points| == p.contourInfo[c].endPoint + 1 - ContourStart(p.contourInfo, c)
    requires forall j :: 0 <= j < |points| ==> GetPointValue(p, ContourStart(p.contourInfo, c) + j) == Some(points[j])
    ensures UnpackContour(Contours(p)[c]) == UnpackedContour(points, p.contourInfo[c].isClosed)
  {
    ContourBounds(p, c);
    forall j | 0 <= j < |points| ensures points[j] == ContourPoint(GetContourValue(p, c), j) {
      ContourPointIsPoint(p, c, j);
    }
  }

  /** The same, from the absolute index `i` of a point of contour `c`. */
  lemma ContourPointAt(p: PathValue, c: nat, i: nat)
    requires Wf(p) && c < |p.contourInfo| && ContourStart(p.contourInfo, c) <= i <= p.contourInfo[c].endPoint
    ensures var j := i - ContourStart(p.contourInfo, c);
            && 0 <= j < |GetContourValue(p, c).pointTypes|
            && GetPointValue(p, i) == Some(ContourPoint(GetContourValue(p, c), j))
  {
    ContourPointIsPoint(p, c, i - ContourStart(p.contourInfo, c));
  }

  /** `_appendPoint`, once per point: points added at the end of the path and of its last contour. */
  function AppendPointsValue(p: PathValue, coordinates: seq<real>, pointTypes: seq<int>): PathValue
    requires |p.contourInfo| > 0
  {
    PathValue(p.coordinates + coordinates, p.pointTypes + pointTypes,
              MoveEndPoints(p.contourInfo, |p.contourInfo| - 1, |pointTypes|))
  }

  /** Appending nothing changes nothing. */
  lemma AppendNoPoints(p: PathValue)
    requires |p.contourInfo| > 0
    ensures AppendPointsValue(p, [], []) == p
  {
    var ci := p.contourInfo;
    assert MoveEndPoints(ci, |ci| - 1, 0) == ci;
  }

  /** Two appends in a row are one append of both. */
  lemma AppendPointsTwice(p: PathValue, a: seq<real>, s: seq<int>, b: seq<real>, t: seq<int>)
    requires |p.contourInfo| > 0
    ensures AppendPointsValue(AppendPointsValue(p, a, s), b, t) == AppendPointsValue(p, a + b, s + t)
  {
    var ci := p.contourInfo;
    var n := |ci|;
    var lhs := AppendPointsValue(AppendPointsValue(p, a, s), b, t).contourInfo;
    var rhs := MoveEndPoints(ci, n - 1, |s + t|);
    assert forall c :: 0 <= c < n ==> lhs[c] == rhs[c];
  }

  /** A packed contour with points added at its end. */
  function ExtendContour(k: PackedContour, coordinates: seq<real>, pointTypes: seq<int>): PackedContour {
    PackedContour(k.coordinates + coordinates, k.pointTypes + pointTypes, k.isClosed)
  }

  lemma AppendPointsIsSetContour(p: PathValue, coordinates: seq<real>, pointTypes: seq<int>)
    requires Wf(p) && |p.contourInfo| > 0
    ensures AppendPointsValue(p, coordinates, pointTypes)
         == SetContourValue(p, |p.contourInfo| - 1,
                            ExtendContour(GetContourValue(p, |p.contourInfo| - 1), coordinates, pointTypes))
  {
    var c := |p.contourInfo| - 1;
    ContourBounds(p, c);
    var s := ContourStart(p.contourInfo, c);
    var k := GetContourValue(p, c);
    assert p.contourInfo[c].endPoint + 1 == |p.pointTypes|;
    assert p.coordinates[..2 * s] + (k.coordinates + coordinates) + p.coordinates[2 * |p.pointTypes|..] == p.coordinates + coordinates;
    assert p.pointTypes[..s] + (k.pointTypes + pointTypes) + p.pointTypes[|p.pointTypes|..] == p.pointTypes + pointTypes;
  }

  /**
   * The pen's appends extend the last contour and change no other; the
   * integrity condition holds afterwards exactly when two coordinates
   * come with every point type.
   */
  lemma AppendPointsContours(p: PathValue, coordinates: seq<real>, pointTypes: seq<int>)
    requires Wf(p) && |p.contourInfo| > 0
    ensures Wf(AppendPointsValue(p, coordinates, pointTypes)) <==> |coordinates| == 2 * |pointTypes|
    ensures |coordinates| == 2 * |pointTypes| ==>
              var c := |p.contourInfo| - 1;
              Contours(AppendPointsValue(p, coordinates, pointTypes))
                == Contours(p)[c := ExtendContour(Contours(p)[c], coordinates, pointTypes)]
  {
    var c := |p.contourInfo| - 1;
    AppendPointsIsSetContour(p, coordinates, pointTypes);
    SetContourContours(p, c, ExtendContour(GetContourValue(p, c), coordinates, pointTypes));
  }

  /** `closePath`: the last contour marked closed. */
  function CloseLastContourValue(p: PathValue): PathValue
    requires |p.contourInfo| > 0
  {
    var c := |p.contourInfo| - 1;
    p.(contourInfo := p.contourInfo[c := p.contourInfo[c].(isClosed := true)])
  }

  /** Closing the path closes its last contour and changes nothing else. */
  lemma CloseLastContourContours(p: PathValue)
    requires Wf(p) && |p.contourInfo| > 0
    ensures Wf(CloseLastContourValue(p))
    ensures var c := |p.contourInfo| - 1;
            Contours(CloseLastContourValue(p)) == Contours(p)[c := Contours(p)[c].(isClosed := true)]
  {
    var q := CloseLastContourValue(p);
    var c := |p.contourInfo| - 1;
    forall j | 0 <= j <= |p.contourInfo| ensures ContourStart(q.contourInfo, j) == ContourStart(p.contourInfo, j) {
    }
    assert Wf(q);
    forall j | 0 <= j < |p.contourInfo| ensures Contours(q)[j] == Contours(p)[c := Contours(p)[c].(isClosed := true)][j] {
      assert ContourStart(q.contourInfo, j) == ContourStart(p.contourInfo, j);
    }
  }
}
