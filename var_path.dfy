/**
 * `VarPackedPath`: a glyph outline packed into three parallel containers
 * that its methods edit in place.
 *
 * Each container is an object of its own, so that two paths can share one
 * (the arithmetic methods and `transformed` return paths that share the
 * receiver's point types and contour list) while `copy` makes new ones.
 * Every method is specified by the value functions of `PathData`: the
 * state after an edit is `PathData`'s edit of the state before, and what
 * an edit does to the list of contours is proved there.
 */
module VarPath {
  import opened Base
  import opened PathData
  import PathDrawing

  /** The coordinates container (`VarArray`): x and y of every point, interleaved. */
  class VarArray {
    var items: seq<real>

    constructor (items: seq<real>)
      ensures this.items == items
    {
      this.items := items;
    }
  }

  /** The point type list. */
  class PointTypeArray {
    var items: seq<int>

    constructor (items: seq<int>)
      ensures this.items == items
    {
      this.items := items;
    }
  }

  /** The contour list: an end point and a closed flag per contour. */
  class ContourInfoArray {
    var items: seq<ContourInfo>

    constructor (items: seq<ContourInfo>)
      ensures this.items == items
    {
      this.items := items;
    }
  }

  /** The x coordinate of point `i`. */
  function X(coordinates: seq<real>, i: nat): real
    requires 2 * i + 1 < |coordinates|
  {
    coordinates[2 * i]
  }

  /** The y coordinate of point `i`. */
  function Y(coordinates: seq<real>, i: nat): real
    requires 2 * i + 1 < |coordinates|
  {
    coordinates[2 * i + 1]
  }

  /** What the control-bounds queries return. */
  datatype Bounds = Bounds(xMin: real, yMin: real, xMax: real, yMax: real)

  function Min(a: real, b: real): real {
    if a <= b then a else b
  }

  function Max(a: real, b: real): real {
    if a >= b then a else b
  }

  /** The bounds contain every point from `startPoint` to `endPoint` and each side touches one of them. */
  ghost predicate IsBoundsOf(b: Bounds, coordinates: seq<real>, startPoint: nat, endPoint: nat)
    requires startPoint <= endPoint && 2 * endPoint + 1 < |coordinates|
  {
    && (forall i :: startPoint <= i <= endPoint ==> b.xMin <= X(coordinates, i) <= b.xMax && b.yMin <= Y(coordinates, i) <= b.yMax)
    && (exists i :: startPoint <= i <= endPoint && X(coordinates, i) == b.xMin)
    && (exists i :: startPoint <= i <= endPoint && X(coordinates, i) == b.xMax)
    && (exists i :: startPoint <= i <= endPoint && Y(coordinates, i) == b.yMin)
    && (exists i :: startPoint <= i <= endPoint && Y(coordinates, i) == b.yMax)
  }

  /** Bounds are unique: two bounds of the same points are equal. */
  lemma BoundsUnique(a: Bounds, b: Bounds, coordinates: seq<real>, startPoint: nat, endPoint: nat)
    requires startPoint <= endPoint && 2 * endPoint + 1 < |coordinates|
    requires IsBoundsOf(a, coordinates, startPoint, endPoint) && IsBoundsOf(b, coordinates, startPoint, endPoint)
    ensures a == b
  {
  }

  /** The point types of two paths agree under the type mask; the smooth flag is ignored. */
  predicate MaskedTypesEqual(a: seq<int>, b: seq<int>) {
    |a| == |b| && forall i :: 0 <= i < |a| ==> MaskedType(a[i]) == MaskedType(b[i])
  }

  /** `_ensureCompatibility`: the same contour list and the same point types up to the smooth flag. */
  predicate Compatible(a: PathValue, b: PathValue) {
    a.contourInfo == b.contourInfo && MaskedTypesEqual(a.pointTypes, b.pointTypes)
  }

  /** `pointTypesEquals`. */
  method PointTypesEquals(a: seq<int>, b: seq<int>) returns (r: bool)
    ensures r <==> MaskedTypesEqual(a, b)
  {
    if |a| != |b| {
      return false;
    }
    var i := 0;
    while i < |a|
      invariant 0 <= i <= |a|
      invariant forall j :: 0 <= j < i ==> MaskedType(a[j]) == MaskedType(b[j])
    {
      if MaskedType(a[i]) != MaskedType(b[i]) {
        return false;
      }
      i := i + 1;
    }
    return true;
  }

  /** `packContour`. */
  method PackContour(u: UnpackedContour) returns (k: PackedContour)
    ensures k == PackedOf(u)
  {
    var coordinates: seq<real> := [];
    var pointTypes: seq<int> := [];
    var i := 0;
    while i < |u.points|
      invariant 0 <= i <= |u.points|
      invariant coordinates == InterleavedCoordinates(u.points[..i])
      invariant |pointTypes| == i
      invariant forall j :: 0 <= j < i ==> pointTypes[j] == PackPointType(u.points[j].pointType, u.points[j].smooth)
    {
      var point := u.points[i];
      assert u.points[..i + 1][..i] == u.points[..i];
      coordinates := coordinates + [point.x, point.y];
      pointTypes := pointTypes + [PackPointType(point.pointType, point.smooth)];
      i := i + 1;
    }
    assert u.points[..i] == u.points;
    k := PackedContour(coordinates, pointTypes, u.isClosed);
  }

  /** Coordinates combined pairwise by `f`. */
  function Itemwise(a: seq<real>, b: seq<real>, f: (real, real) -> real): (r: seq<real>)
    requires |a| == |b|
    ensures |r| == |a| && forall i :: 0 <= i < |a| ==> r[i] == f(a[i], b[i])
  {
    seq(|a|, i requires 0 <= i < |a| => f(a[i], b[i]))
  }

  function Add(a: real, b: real): real { a + b }

  function Sub(a: real, b: real): real { a - b }

  /** `VarArray.addItemwise` and `subItemwise`: arrays of different lengths raise. */
  function ItemwiseChecked(a: seq<real>, b: seq<real>, f: (real, real) -> real): (r: Result<seq<real>, PathError>)
    ensures r.Ok? <==> |a| == |b|
    ensures r.Ok? ==> r.value == Itemwise(a, b, f)
    ensures r.Err? ==> r.error == ArrayLengthMismatch(|a|, |b|)
  {
    if |a| != |b| then Err(ArrayLengthMismatch(|a|, |b|)) else Ok(Itemwise(a, b, f))
  }

  /** Subtracting what was added restores the coordinates. */
  lemma AddSubItemwise(a: seq<real>, b: seq<real>)
    requires |a| == |b|
    ensures Itemwise(Itemwise(a, b, Add), b, Sub) == a
  {
  }

  /** The point before `j` in the contour `startPoint..endPoint`, wrapping from the first to the last. */
  function PrevIndex(startPoint: nat, endPoint: int, j: nat): int {
    if j == startPoint then endPoint else j - 1
  }

  /** A contour's handles: neighbouring points, wrapping around a closed contour, whose masked types differ. */
  function ContourHandles(p: PathValue, startPoint: nat, endPoint: int, isClosed: bool): seq<(nat, nat)>
    requires |p.coordinates| == 2 * |p.pointTypes| && endPoint < |p.pointTypes|
  {
    HandlesFrom(p, startPoint, endPoint, isClosed, startPoint + (if isClosed then 0 else 1))
  }

  /** The handles whose second point is `next` or later. */
  function HandlesFrom(p: PathValue, startPoint: nat, endPoint: int, isClosed: bool, next: nat): seq<(nat, nat)>
    requires |p.coordinates| == 2 * |p.pointTypes| && endPoint < |p.pointTypes| && startPoint <= next
    requires !isClosed ==> startPoint < next
    decreases endPoint + 1 - next
  {
    if next > endPoint then []
    else
      var prev := PrevIndex(startPoint, endPoint, next);
      var rest := HandlesFrom(p, startPoint, endPoint, isClosed, next + 1);
      if MaskedType(p.pointTypes[prev]) != MaskedType(p.pointTypes[next]) then [(prev, next)] + rest else rest
  }

  /** One step of `HandlesFrom`: the handle ending at `next`, if any, then the rest. */
  lemma HandlesFromStep(p: PathValue, startPoint: nat, endPoint: int, isClosed: bool, next: nat)
    requires |p.coordinates| == 2 * |p.pointTypes| && endPoint < |p.pointTypes| && startPoint <= next <= endPoint
    requires !isClosed ==> startPoint < next
    ensures var prev := PrevIndex(startPoint, endPoint, next);
      HandlesFrom(p, startPoint, endPoint, isClosed, next)
      == (if MaskedType(p.pointTypes[prev]) != MaskedType(p.pointTypes[next]) then [(prev as nat, next)] else [])
         + HandlesFrom(p, startPoint, endPoint, isClosed, next + 1)
  {
  }

  /** `h` joins point `h.1` of the contour to the point before it, and their masked types differ. */
  ghost predicate IsHandle(p: PathValue, startPoint: nat, endPoint: int, isClosed: bool, h: (nat, nat))
    requires |p.coordinates| == 2 * |p.pointTypes| && endPoint < |p.pointTypes|
  {
    && startPoint <= h.1 <= endPoint
    && (isClosed || startPoint < h.1)
    && h.0 == PrevIndex(startPoint, endPoint, h.1)
    && MaskedType(p.pointTypes[h.0]) != MaskedType(p.pointTypes[h.1])
  }

  lemma {:induction false} HandlesFromAre(p: PathValue, startPoint: nat, endPoint: int, isClosed: bool, next: nat)
    requires |p.coordinates| == 2 * |p.pointTypes| && endPoint < |p.pointTypes| && startPoint <= next
    requires !isClosed ==> startPoint < next
    ensures forall h :: h in HandlesFrom(p, startPoint, endPoint, isClosed, next) <==>
              next <= h.1 && IsHandle(p, startPoint, endPoint, isClosed, h)
    decreases endPoint + 1 - next
  {
    if next <= endPoint {
      HandlesFromAre(p, startPoint, endPoint, isClosed, next + 1);
    }
  }

  /**
   * The handles `iterHandles` yields for one contour are exactly the pairs of neighbouring
   * points whose masked types differ, the pair (last, first) included when the contour is closed.
   */
  lemma ContourHandlesAre(p: PathValue, startPoint: nat, endPoint: int, isClosed: bool, h: (nat, nat))
    requires |p.coordinates| == 2 * |p.pointTypes| && endPoint < |p.pointTypes|
    ensures h in ContourHandles(p, startPoint, endPoint, isClosed) <==> IsHandle(p, startPoint, endPoint, isClosed, h)
  {
    HandlesFromAre(p, startPoint, endPoint, isClosed, startPoint + (if isClosed then 0 else 1));
  }

  /** The handles of contours `c..` of the path. */
  function HandlesOfContours(p: PathValue, c: nat): seq<(nat, nat)>
    requires Wf(p) && c <= |p.contourInfo|
    decreases |p.contourInfo| - c
  {
    if c == |p.contourInfo| then []
    else
      ContourBounds(p, c);
      ContourHandles(p, ContourStart(p.contourInfo, c), p.contourInfo[c].endPoint, p.contourInfo[c].isClosed)
      + HandlesOfContours(p, c + 1)
  }

  /** A contour of on-curve points only has no handles. */
  lemma {:induction false} NoHandlesWithoutOffCurves(p: PathValue, startPoint: nat, endPoint: int, isClosed: bool, next: nat)
    requires |p.coordinates| == 2 * |p.pointTypes| && endPoint < |p.pointTypes| && startPoint <= next
    requires !isClosed ==> startPoint < next
    requires forall i :: startPoint <= i <= endPoint ==> MaskedType(p.pointTypes[i]) == ON_CURVE
    ensures HandlesFrom(p, startPoint, endPoint, isClosed, next) == []
    decreases endPoint + 1 - next
  {
    if next <= endPoint {
      NoHandlesWithoutOffCurves(p, startPoint, endPoint, isClosed, next + 1);
    }
  }

  /** The indices of the first `n` points that `inRect` accepts, in order. */
  function IndicesInRect(coordinates: seq<real>, inRect: (real, real) -> bool, n: nat): seq<nat>
    requires 2 * n <= |coordinates|
  {
    if n == 0 then []
    else IndicesInRect(coordinates, inRect, n - 1) + (if inRect(X(coordinates, n - 1), Y(coordinates, n - 1)) then [n - 1] else [])
  }

  /** The hits are exactly the accepted points, each once, in increasing order. */
  /** When the hits before the `k`-th are all the skipped index, so is every accepted point before the `k`-th hit. */
  lemma EarlierHitsSkipped(coordinates: seq<real>, inRect: (real, real) -> bool, n: nat, skip: Option<int>, k: nat)
    requires 2 * n <= |coordinates|
    requires k < |IndicesInRect(coordinates, inRect, n)|
    requires forall m :: 0 <= m < k ==> Some(IndicesInRect(coordinates, inRect, n)[m] as int) == skip
    ensures IndicesInRect(coordinates, inRect, n)[k] < n
    ensures inRect(X(coordinates, IndicesInRect(coordinates, inRect, n)[k]), Y(coordinates, IndicesInRect(coordinates, inRect, n)[k]))
    ensures forall j :: 0 <= j < IndicesInRect(coordinates, inRect, n)[k] && inRect(X(coordinates, j), Y(coordinates, j)) ==> Some(j) == skip
  {
    var indices := IndicesInRect(coordinates, inRect, n);
    IndicesInRectAre(coordinates, inRect, n);
    forall j | 0 <= j < indices[k] && inRect(X(coordinates, j), Y(coordinates, j)) ensures Some(j) == skip {
      var m :| 0 <= m < |indices| && indices[m] == j;
      assert m < k;
    }
  }

  /** When every hit is the skipped index, so is every accepted point. */
  lemma AllHitsSkipped(coordinates: seq<real>, inRect: (real, real) -> bool, n: nat, skip: Option<int>)
    requires 2 * n <= |coordinates|
    requires forall m :: 0 <= m < |IndicesInRect(coordinates, inRect, n)| ==> Some(IndicesInRect(coordinates, inRect, n)[m] as int) == skip
    ensures forall j :: 0 <= j < n && inRect(X(coordinates, j), Y(coordinates, j)) ==> Some(j) == skip
  {
    var indices := IndicesInRect(coordinates, inRect, n);
    IndicesInRectAre(coordinates, inRect, n);
    forall j | 0 <= j < n && inRect(X(coordinates, j), Y(coordinates, j)) ensures Some(j) == skip {
      var m :| 0 <= m < |indices| && indices[m] == j;
    }
  }

  lemma {:induction false} IndicesInRectAre(coordinates: seq<real>, inRect: (real, real) -> bool, n: nat)
    requires 2 * n <= |coordinates|
    ensures forall k :: 0 <= k < |IndicesInRect(coordinates, inRect, n)| ==>
              IndicesInRect(coordinates, inRect, n)[k] < n
              && inRect(X(coordinates, IndicesInRect(coordinates, inRect, n)[k]), Y(coordinates, IndicesInRect(coordinates, inRect, n)[k]))
    ensures forall j :: 0 <= j < n && inRect(X(coordinates, j), Y(coordinates, j)) ==> j in IndicesInRect(coordinates, inRect, n)
    ensures forall a, b :: 0 <= a < b < |IndicesInRect(coordinates, inRect, n)| ==>
              IndicesInRect(coordinates, inRect, n)[a] < IndicesInRect(coordinates, inRect, n)[b]
  {
    if n > 0 {
      IndicesInRectAre(coordinates, inRect, n - 1);
    }
  }

  /** A handle as `iterHandles` yields it: the positions of its two points. */
  function HandlePosition(coordinates: seq<real>, h: (nat, nat)): ((real, real), (real, real))
    requires 2 * h.0 + 1 < |coordinates| && 2 * h.1 + 1 < |coordinates|
  {
    ((X(coordinates, h.0), Y(coordinates, h.0)), (X(coordinates, h.1), Y(coordinates, h.1)))
  }

  /** `handles` holds the positions of the handles `hs`. */
  ghost predicate HandlesAt(coordinates: seq<real>, handles: seq<((real, real), (real, real))>, hs: seq<(nat, nat)>) {
    && |handles| == |hs|
    && forall k :: 0 <= k < |hs| ==>
         2 * hs[k].0 + 1 < |coordinates| && 2 * hs[k].1 + 1 < |coordinates| && handles[k] == HandlePosition(coordinates, hs[k])
  }

  lemma HandlesAtConcat(coordinates: seq<real>, a: seq<((real, real), (real, real))>, ha: seq<(nat, nat)>,
                        b: seq<((real, real), (real, real))>, hb: seq<(nat, nat)>)
    requires HandlesAt(coordinates, a, ha) && HandlesAt(coordinates, b, hb)
    ensures HandlesAt(coordinates, a + b, ha + hb)
  {
    forall k | 0 <= k < |ha + hb|
      ensures 2 * (ha + hb)[k].0 + 1 < |coordinates| && 2 * (ha + hb)[k].1 + 1 < |coordinates|
      ensures (a + b)[k] == HandlePosition(coordinates, (ha + hb)[k])
    {
      if k >= |ha| {
        assert (ha + hb)[k] == hb[k - |ha|] && (a + b)[k] == b[k - |a|];
      }
    }
  }

  /** The state of the inner loop of `iterHandles` before point `next`: the handles before it are out. */
  ghost predicate HandlesDoneUpTo(p: PathValue, startPoint: nat, endPoint: int, isClosed: bool, next: nat,
                                  handles: seq<((real, real), (real, real))>, done: seq<(nat, nat)>)
    requires |p.coordinates| == 2 * |p.pointTypes| && endPoint < |p.pointTypes| && startPoint <= next
    requires !isClosed ==> startPoint < next
  {
    && done + HandlesFrom(p, startPoint, endPoint, isClosed, next) == ContourHandles(p, startPoint, endPoint, isClosed)
    && HandlesAt(p.coordinates, handles, done)
  }

  lemma HandlesDoneStep(p: PathValue, startPoint: nat, endPoint: int, isClosed: bool, next: nat,
                        handles: seq<((real, real), (real, real))>, done: seq<(nat, nat)>)
    requires |p.coordinates| == 2 * |p.pointTypes| && endPoint < |p.pointTypes| && startPoint <= next <= endPoint
    requires !isClosed ==> startPoint < next
    requires HandlesDoneUpTo(p, startPoint, endPoint, isClosed, next, handles, done)
    ensures var prev := PrevIndex(startPoint, endPoint, next);
      0 <= prev < |p.pointTypes| &&
      if MaskedType(p.pointTypes[prev]) != MaskedType(p.pointTypes[next]) then
        HandlesDoneUpTo(p, startPoint, endPoint, isClosed, next + 1,
                        handles + [HandlePosition(p.coordinates, (prev as nat, next))], done + [(prev as nat, next)])
      else
        HandlesDoneUpTo(p, startPoint, endPoint, isClosed, next + 1, handles, done)
  {
    var prev := PrevIndex(startPoint, endPoint, next);
    HandlesFromStep(p, startPoint, endPoint, isClosed, next);
    var rest := HandlesFrom(p, startPoint, endPoint, isClosed, next + 1);
    if MaskedType(p.pointTypes[prev]) != MaskedType(p.pointTypes[next]) {
      HandlesAtConcat(p.coordinates, handles, done, [HandlePosition(p.coordinates, (prev as nat, next))], [(prev as nat, next)]);
      assert done + ([(prev as nat, next)] + rest) == (done + [(prev as nat, next)]) + rest;
    } else {
      assert [] + rest == rest;
    }
  }

  /** The inner loop of `iterHandles`: the handles of one contour. */
  method IterContourHandles(ghost p: PathValue, coords: seq<real>, types: seq<int>, startPoint: nat, endPoint: int, isClosed: bool)
    returns (handles: seq<((real, real), (real, real))>)
    requires coords == p.coordinates && types == p.pointTypes
    requires |p.coordinates| == 2 * |p.pointTypes| && endPoint < |p.pointTypes| && startPoint <= endPoint + 1
    ensures HandlesAt(coords, handles, ContourHandles(p, startPoint, endPoint, isClosed))
  {
    handles := [];
    ghost var done: seq<(nat, nat)> := [];
    var prevIndex: int := if isClosed then endPoint else startPoint;
    var nextIndex: nat := startPoint + (if isClosed then 0 else 1);
    while nextIndex <= endPoint
      invariant startPoint <= nextIndex && (!isClosed ==> startPoint < nextIndex)
      invariant nextIndex <= endPoint + 1 || nextIndex == startPoint + 1
      invariant prevIndex == PrevIndex(startPoint, endPoint, nextIndex)
      invariant HandlesDoneUpTo(p, startPoint, endPoint, isClosed, nextIndex, handles, done)
    {
      HandlesDoneStep(p, startPoint, endPoint, isClosed, nextIndex, handles, done);
      var prevType := MaskedType(types[prevIndex]);
      var nextType := MaskedType(types[nextIndex]);
      if prevType != nextType {
        handles := handles + [HandlePosition(coords, (prevIndex, nextIndex))];
        done := done + [(prevIndex, nextIndex)];
      }
      prevIndex := nextIndex;
      nextIndex := nextIndex + 1;
    }
    assert HandlesFrom(p, startPoint, endPoint, isClosed, nextIndex) == [];
  }

  /** The state of `iterHandles` before contour `c`: the handles of the contours before it are out. */
  ghost predicate PathHandlesUpTo(p: PathValue, c: nat, handles: seq<((real, real), (real, real))>, done: seq<(nat, nat)>)
    requires Wf(p) && c <= |p.contourInfo|
  {
    done + HandlesOfContours(p, c) == HandlesOfContours(p, 0) && HandlesAt(p.coordinates, handles, done)
  }

  lemma PathHandlesStep(p: PathValue, c: nat, handles: seq<((real, real), (real, real))>, done: seq<(nat, nat)>,
                        contourHandles: seq<((real, real), (real, real))>)
    requires Wf(p) && c < |p.contourInfo| && PathHandlesUpTo(p, c, handles, done)
    requires ContourStart(p.contourInfo, c) <= p.contourInfo[c].endPoint + 1 && p.contourInfo[c].endPoint < |p.pointTypes|
    requires HandlesAt(p.coordinates, contourHandles,
                       ContourHandles(p, ContourStart(p.contourInfo, c), p.contourInfo[c].endPoint, p.contourInfo[c].isClosed))
    ensures PathHandlesUpTo(p, c + 1, handles + contourHandles,
                            done + ContourHandles(p, ContourStart(p.contourInfo, c), p.contourInfo[c].endPoint, p.contourInfo[c].isClosed))
  {
    var hs := ContourHandles(p, ContourStart(p.contourInfo, c), p.contourInfo[c].endPoint, p.contourInfo[c].isClosed);
    HandlesAtConcat(p.coordinates, handles, done, contourHandles, hs);
    assert HandlesOfContours(p, c) == hs + HandlesOfContours(p, c + 1);
    assert done + (hs + HandlesOfContours(p, c + 1)) == (done + hs) + HandlesOfContours(p, c + 1);
  }

  /** `mulScalar`: every coordinate scaled. */
  function Scaled(coordinates: seq<real>, scalar: real): (r: seq<real>)
    ensures |r| == |coordinates| && forall i :: 0 <= i < |coordinates| ==> r[i] == coordinates[i] * scalar
  {
    seq(|coordinates|, i requires 0 <= i < |coordinates| => coordinates[i] * scalar)
  }

  /** A contour's segments as `getContourSegmentPointIndices` returns them. */
  datatype ContourSegmentInfo = ContourSegmentInfo(isClosed: bool, segments: seq<PathDrawing.Segment>)

  class VarPackedPath {
    var coordinates: VarArray
    var pointTypes: PointTypeArray
    var contourInfo: ContourInfoArray

    /** The path as a value. */
    function Value(): PathValue
      reads this, coordinates, pointTypes, contourInfo
    {
      PathValue(coordinates.items, pointTypes.items, contourInfo.items)
    }

    /** The integrity condition on the current contents. */
    predicate Valid()
      reads this, coordinates, pointTypes, contourInfo
    {
      Wf(Value())
    }

    /** `new VarPackedPath()`: an empty path over new containers. */
    constructor Empty()
      ensures Value() == EmptyPath() && Valid()
      ensures fresh(coordinates) && fresh(pointTypes) && fresh(contourInfo)
    {
      coordinates := new VarArray([]);
      pointTypes := new PointTypeArray([]);
      contourInfo := new ContourInfoArray([]);
    }

    /** `new VarPackedPath(coordinates, pointTypes, contourInfo)`: a path over the given containers, shared. */
    constructor (coordinates: VarArray, pointTypes: PointTypeArray, contourInfo: ContourInfoArray)
      ensures this.coordinates == coordinates && this.pointTypes == pointTypes && this.contourInfo == contourInfo
    {
      this.coordinates := coordinates;
      this.pointTypes := pointTypes;
      this.contourInfo := contourInfo;
    }

    /** `fromObject`: the coordinates copied into a new container, the point types and contour list shared. */
    static method FromObject(coordinates: seq<real>, pointTypes: PointTypeArray, contourInfo: ContourInfoArray)
      returns (path: VarPackedPath)
      ensures fresh(path) && fresh(path.coordinates)
      ensures path.pointTypes == pointTypes && path.contourInfo == contourInfo
      ensures path.Value() == PathValue(coordinates, pointTypes.items, contourInfo.items)
    {
      var items := new VarArray(coordinates);
      path := new VarPackedPath(items, pointTypes, contourInfo);
    }

    //
    // Private helpers: `_replacePoints`, `_moveEndPoints`, `_insertPoint`, `_appendPoint`
    //

    method ReplacePointsInPlace(start: nat, count: nat, newCoordinates: seq<real>, newPointTypes: seq<int>)
      requires |coordinates.items| == 2 * |pointTypes.items| && start + count <= |pointTypes.items|
      modifies coordinates, pointTypes
      ensures Value() == ReplacePoints(old(Value()), start, count, newCoordinates, newPointTypes)
    {
      coordinates.items := coordinates.items[..2 * start] + newCoordinates + coordinates.items[2 * (start + count)..];
      pointTypes.items := pointTypes.items[..start] + newPointTypes + pointTypes.items[start + count..];
    }

    method MoveEndPointsInPlace(from: nat, offset: int)
      requires from <= |contourInfo.items|
      modifies contourInfo
      ensures contourInfo.items == MoveEndPoints(old(contourInfo.items), from, offset)
    {
      ghost var before := contourInfo.items;
      var c := from;
      while c < |contourInfo.items|
        invariant from <= c <= |contourInfo.items| == |before|
        invariant forall j :: 0 <= j < |before| ==>
                    contourInfo.items[j] == if from <= j < c then before[j].(endPoint := before[j].endPoint + offset) else before[j]
      {
        contourInfo.items := contourInfo.items[c := contourInfo.items[c].(endPoint := contourInfo.items[c].endPoint + offset)];
        c := c + 1;
      }
      assert forall j :: 0 <= j < |before| ==> contourInfo.items[j] == MoveEndPoints(before, from, offset)[j];
    }

    //
    // Contours
    //

    function NumContours(): nat
      reads this, contourInfo
    {
      |contourInfo.items|
    }

    /** `numPoints`: the length of the point type list, which is where the last contour ends. */
    function NumPoints(): (n: nat)
      reads this, coordinates, pointTypes, contourInfo
      ensures Valid() ==> n == ContourStart(contourInfo.items, |contourInfo.items|)
      ensures Valid() ==> 2 * n == |coordinates.items|
    {
      |pointTypes.items|
    }

    /** `getNumPointsOfContour`: the size of a contour, a negative index counting from the end. */
    function GetNumPointsOfContour(contourIndex: int): (r: Result<nat, PathError>)
      reads this, coordinates, pointTypes, contourInfo
      requires Valid()
      ensures var n := |contourInfo.items|;
              && (r.Ok? <==> -n <= contourIndex < n)
              && (r.Ok? ==> r.value == |Contours(Value())[if contourIndex < 0 then contourIndex + n else contourIndex].pointTypes|)
              && (r.Err? ==> r.error == ContourIndexOutOfBounds(contourIndex))
    {
      match NormalizeContourIndex(|contourInfo.items|, contourIndex, false)
      case Err(e) => Err(e)
      case Ok(c) =>
        ContourBounds(Value(), c);
        Ok(contourInfo.items[c].endPoint + 1 - ContourStart(contourInfo.items, c))
    }

    /** `getContour`: a contour's slices, a negative index counting from the end. */
    function GetContour(contourIndex: int): (r: Result<PackedContour, PathError>)
      reads this, coordinates, pointTypes, contourInfo
      requires Valid()
      ensures var n := |contourInfo.items|;
              && (r.Ok? <==> -n <= contourIndex < n)
              && (r.Ok? ==> r.value == Contours(Value())[if contourIndex < 0 then contourIndex + n else contourIndex])
              && (r.Err? ==> r.error == ContourIndexOutOfBounds(contourIndex))
    {
      match NormalizeContourIndex(|contourInfo.items|, contourIndex, false)
      case Err(e) => Err(e)
      case Ok(c) => Ok(GetContourValue(Value(), c))
    }

    /** `setContour`: contour `contourIndex` replaced by `k`; the other contours keep their points. */
    method SetContour(contourIndex: int, k: PackedContour) returns (r: Outcome<PathError>)
      requires Valid()
      modifies coordinates, pointTypes, contourInfo
      ensures var n := NormalizeContourIndex(old(|contourInfo.items|), contourIndex, false);
              && (r.Pass? <==> n.Ok?)
              && (n.Err? ==> r == Fail(n.error) && Value() == old(Value()))
              && (n.Ok? ==> Value() == SetContourValue(old(Value()), n.value, k))
              && (n.Ok? ==> (Valid() <==> WfContour(k)))
              && (n.Ok? && WfContour(k) ==> Contours(Value()) == old(Contours(Value()))[n.value := k])
    {
      var n := NormalizeContourIndex(|contourInfo.items|, contourIndex, false);
      if n.Err? {
        return Fail(n.error);
      }
      ghost var p := Value();
      SetContourAt(n.value, k);
      SetContourContours(p, n.value, k);
      r := Pass;
    }

    /** The body of `setContour` once the contour index is normalized. */
    method SetContourAt(c: nat, k: PackedContour)
      requires Valid() && c < |contourInfo.items|
      modifies coordinates, pointTypes, contourInfo
      ensures Value() == SetContourValue(old(Value()), c, k)
    {
      ghost var p := Value();
      ContourBounds(p, c);
      var startPoint := ContourStart(contourInfo.items, c);
      var numOldPoints: nat := contourInfo.items[c].endPoint + 1 - startPoint;
      ghost var q := ReplacePoints(p, startPoint, numOldPoints, k.coordinates, k.pointTypes);
      ghost var ci := MoveEndPoints(q.contourInfo, c, |k.pointTypes| - numOldPoints);
      ReplacePointsInPlace(startPoint, numOldPoints, k.coordinates, k.pointTypes);
      assert Value() == q;
      MoveEndPointsInPlace(c, |k.pointTypes| - numOldPoints);
      assert contourInfo.items == ci;
      contourInfo.items := contourInfo.items[c := contourInfo.items[c].(isClosed := k.isClosed)];
      assert Value() == q.(contourInfo := ci[c := ci[c].(isClosed := k.isClosed)]);
    }

    /** `insertContour`: `k` inserted before contour `contourIndex`, which may be one past the last. */
    method InsertContour(contourIndex: int, k: PackedContour) returns (r: Outcome<PathError>)
      requires Valid()
      modifies coordinates, pointTypes, contourInfo
      ensures var n := NormalizeContourIndex(old(|contourInfo.items|), contourIndex, true);
              && (r.Pass? <==> n.Ok?)
              && (n.Err? ==> r == Fail(n.error) && Value() == old(Value()))
              && (n.Ok? ==> Value() == InsertContourValue(old(Value()), n.value, k))
              && (n.Ok? ==> (Valid() <==> WfContour(k)))
              && (n.Ok? && WfContour(k) ==> Contours(Value()) == InsertAt(old(Contours(Value())), n.value, k))
    {
      var n := NormalizeContourIndex(|contourInfo.items|, contourIndex, true);
      if n.Err? {
        return Fail(n.error);
      }
      ghost var p := Value();
      InsertContourAt(n.value, k);
      InsertContourContours(p, n.value, k);
      r := Pass;
    }

    /** The body of `insertContour` once the contour index is normalized. */
    method InsertContourAt(c: nat, k: PackedContour)
      requires Valid() && c <= |contourInfo.items|
      modifies coordinates, pointTypes, contourInfo
      ensures Value() == InsertContourValue(old(Value()), c, k)
    {
      ghost var p := Value();
      ContourStartBounds(p, c);
      var startPoint: nat := ContourStart(contourInfo.items, c);
      ghost var q := ReplacePoints(p, startPoint, 0, k.coordinates, k.pointTypes);
      ghost var ci := InsertAt(q.contourInfo, c, ContourInfo(startPoint - 1, k.isClosed));
      ReplacePointsInPlace(startPoint, 0, k.coordinates, k.pointTypes);
      assert Value() == q;
      contourInfo.items := InsertAt(contourInfo.items, c, ContourInfo(startPoint - 1, k.isClosed));
      assert contourInfo.items == ci;
      MoveEndPointsInPlace(c, |k.pointTypes|);
      assert Value() == q.(contourInfo := MoveEndPoints(ci, c, |k.pointTypes|));
    }

    /** `appendContour`: `k` becomes the last contour. */
    method AppendContour(k: PackedContour)
      requires Valid()
      modifies coordinates, pointTypes, contourInfo
      ensures Value() == ConcatValue(old(Value()), SinglePath(k))
      ensures Valid() <==> WfContour(k)
      ensures WfContour(k) ==> Contours(Value()) == old(Contours(Value())) + [k]
    {
      ghost var p := Value();
      var r := InsertContour(|contourInfo.items|, k);
      AppendContourIsInsert(p, k);
    }

    /** `deleteContour`: contour `contourIndex` and its points removed. */
    method DeleteContour(contourIndex: int) returns (r: Outcome<PathError>)
      requires Valid()
      modifies coordinates, pointTypes, contourInfo
      ensures var n := NormalizeContourIndex(old(|contourInfo.items|), contourIndex, false);
              && (r.Pass? <==> n.Ok?)
              && (n.Err? ==> r == Fail(n.error) && Value() == old(Value()))
              && (n.Ok? ==> Value() == DeleteContourValue(old(Value()), n.value))
              && Valid()
              && (n.Ok? ==> Contours(Value()) == RemoveAt(old(Contours(Value())), n.value))
    {
      var n := NormalizeContourIndex(|contourInfo.items|, contourIndex, false);
      if n.Err? {
        return Fail(n.error);
      }
      ghost var p := Value();
      DeleteContourAt(n.value);
      DeleteContourContours(p, n.value);
      r := Pass;
    }

    /** The body of `deleteContour` once the contour index is normalized. */
    method DeleteContourAt(c: nat)
      requires Valid() && c < |contourInfo.items|
      modifies coordinates, pointTypes, contourInfo
      ensures Value() == DeleteContourValue(old(Value()), c)
    {
      ghost var p := Value();
      ContourBounds(p, c);
      var startPoint := ContourStart(contourInfo.items, c);
      var numPoints: nat := contourInfo.items[c].endPoint + 1 - startPoint;
      ghost var q := ReplacePoints(p, startPoint, numPoints, [], []);
      ReplacePointsInPlace(startPoint, numPoints, [], []);
      assert Value() == q;
      contourInfo.items := RemoveAt(contourInfo.items, c);
      MoveEndPointsInPlace(c, -(numPoints as int));
      assert Value() == q.(contourInfo := MoveEndPoints(RemoveAt(q.contourInfo, c), c, -(numPoints as int)));
    }

    //
    // Points
    //

    /** `getPoint`: `None` past the end. */
    function GetPoint(pointIndex: int): (r: Option<Point>)
      reads this, coordinates, pointTypes
      requires |coordinates.items| == 2 * |pointTypes.items|
      ensures r.Some? <==> 0 <= pointIndex < |pointTypes.items|
      ensures r.Some? ==> r.value.x == coordinates.items[2 * pointIndex] && r.value.y == coordinates.items[2 * pointIndex + 1]
    {
      GetPointValue(PathValue(coordinates.items, pointTypes.items, []), pointIndex)
    }

    /** `getPointPosition`. */
    function GetPointPosition(pointIndex: nat): (xy: (real, real))
      reads this, coordinates, pointTypes
      requires |coordinates.items| == 2 * |pointTypes.items| && pointIndex < |pointTypes.items|
      ensures GetPoint(pointIndex).Some? && xy == (GetPoint(pointIndex).value.x, GetPoint(pointIndex).value.y)
    {
      (coordinates.items[2 * pointIndex], coordinates.items[2 * pointIndex + 1])
    }

    /** `setPointPosition`. */
    method SetPointPosition(pointIndex: nat, x: real, y: real)
      requires |coordinates.items| == 2 * |pointTypes.items| && pointIndex < |pointTypes.items|
      modifies coordinates
      ensures coordinates.items == old(coordinates.items)[2 * pointIndex := x][2 * pointIndex + 1 := y]
      ensures Valid() == old(Valid())
    {
      coordinates.items := coordinates.items[2 * pointIndex := x][2 * pointIndex + 1 := y];
    }

    /** `setPointType`: the packed type of an unpacked point's type and smooth flag. */
    method SetPointType(pointIndex: nat, pointType: Option<string>, smooth: bool)
      requires pointIndex < |pointTypes.items|
      modifies pointTypes
      ensures pointTypes.items == old(pointTypes.items)[pointIndex := PackPointType(pointType, smooth)]
      ensures Valid() == old(Valid())
    {
      pointTypes.items := pointTypes.items[pointIndex := PackPointType(pointType, smooth)];
    }

    /** `setPoint`: a canonical point reads back unchanged, and no other point changes. */
    method SetPoint(pointIndex: nat, pt: Point)
      requires |coordinates.items| == 2 * |pointTypes.items| && pointIndex < |pointTypes.items|
      modifies coordinates, pointTypes
      ensures Value() == SetPointValue(old(Value()), pointIndex, pt)
      ensures Valid() == old(Valid())
      ensures IsCanonicalPoint(pt) ==> GetPoint(pointIndex) == Some(pt)
      ensures forall j :: j != pointIndex ==> GetPoint(j) == old(GetPoint(j))
    {
      ghost var p := Value();
      SetPointPosition(pointIndex, pt.x, pt.y);
      SetPointType(pointIndex, pt.pointType, pt.smooth);
      SetPointGetPoint(p, pointIndex, pt);
      assert forall j :: GetPoint(j) == GetPointValue(Value(), j);
    }

    /**
     * `_normalizeContourIndex` and then `getAbsolutePointIndex`: the
     * contour index and the absolute index of a contour point, both
     * indices counting from the end when negative.
     */
    function ContourPointIndex(contourIndex: int, contourPointIndex: int, forInsert: bool): (r: Result<(nat, nat), PathError>)
      reads this, coordinates, pointTypes, contourInfo
      requires Valid()
      ensures var n := |contourInfo.items|;
              var c := if contourIndex < 0 then contourIndex + n else contourIndex;
              && (!(-n <= contourIndex < n) ==> r == Err(ContourIndexOutOfBounds(contourIndex)))
              && (-n <= contourIndex < n ==>
                    var m := contourInfo.items[c].endPoint + 1 - ContourStart(contourInfo.items, c);
                    var j := if contourPointIndex < 0 then contourPointIndex + m else contourPointIndex;
                    && (r.Ok? <==> -m <= contourPointIndex < m + (if forInsert then 1 else 0))
                    && (r.Ok? ==> r.value == (c, ContourStart(contourInfo.items, c) + j))
                    && (r.Err? ==> r.error == ContourPointIndexOutOfBounds(contourPointIndex)))
      ensures r.Ok? ==> r.value.0 < |contourInfo.items|
                        && ContourStart(contourInfo.items, r.value.0) <= r.value.1
                        && r.value.1 <= contourInfo.items[r.value.0].endPoint + (if forInsert then 1 else 0)
                        && r.value.1 < |pointTypes.items| + (if forInsert then 1 else 0)
    {
      match NormalizeContourIndex(|contourInfo.items|, contourIndex, false)
      case Err(e) => Err(e)
      case Ok(c) =>
        ContourBounds(Value(), c);
        AbsolutePointIndexRange(Value(), c, contourPointIndex, forInsert);
        match AbsolutePointIndex(Value(), c, contourPointIndex, forInsert)
        case Err(e) => Err(e)
        case Ok(i) => Ok((c, i))
    }

    /** `getContourPoint`: point `contourPointIndex` of contour `contourIndex`. */
    function GetContourPoint(contourIndex: int, contourPointIndex: int): (r: Result<Point, PathError>)
      reads this, coordinates, pointTypes, contourInfo
      requires Valid()
      ensures var q := ContourPointIndex(contourIndex, contourPointIndex, false);
              && (r.Ok? <==> q.Ok?)
              && (r.Err? ==> r.error == q.error)
              && (r.Ok? ==> var c := q.value.0;
                            var j := q.value.1 - ContourStart(contourInfo.items, c);
                            0 <= j < |GetContourValue(Value(), c).pointTypes| && r.value == ContourPoint(GetContourValue(Value(), c), j))
    {
      var q := ContourPointIndex(contourIndex, contourPointIndex, false);
      if q.Err? then Err(q.error)
      else
        ContourPointAt(Value(), q.value.0, q.value.1);
        Ok(GetPointValue(Value(), q.value.1).value)
    }

    /** `setContourPoint`. */
    method SetContourPoint(contourIndex: int, contourPointIndex: int, pt: Point) returns (r: Outcome<PathError>)
      requires Valid()
      modifies coordinates, pointTypes
      ensures var q := old(ContourPointIndex(contourIndex, contourPointIndex, false));
              && (r.Pass? <==> q.Ok?)
              && (q.Err? ==> r == Fail(q.error) && Value() == old(Value()))
              && (q.Ok? ==> Value() == SetPointValue(old(Value()), q.value.1, pt))
              && Valid()
    {
      var q := ContourPointIndex(contourIndex, contourPointIndex, false);
      if q.Err? {
        return Fail(q.error);
      }
      SetPoint(q.value.1, pt);
      r := Pass;
    }

    /** `_insertPoint`: a point inserted at absolute index `pointIndex` of contour `c`. */
    method InsertPointAt(c: nat, pointIndex: nat, pt: Point)
      requires Valid() && c < |contourInfo.items|
      requires ContourStart(contourInfo.items, c) <= pointIndex <= contourInfo.items[c].endPoint + 1
      modifies coordinates, pointTypes, contourInfo
      ensures Value() == InsertPointValue(old(Value()), c, pointIndex, pt.x, pt.y, PackPointType(pt.pointType, pt.smooth))
    {
      ghost var p := Value();
      ContourBounds(p, c);
      ghost var v := InsertPointValue(p, c, pointIndex, pt.x, pt.y, PackPointType(pt.pointType, pt.smooth));
      coordinates.items := coordinates.items[..2 * pointIndex] + [pt.x, pt.y] + coordinates.items[2 * pointIndex..];
      assert coordinates.items == v.coordinates;
      pointTypes.items := InsertAt(pointTypes.items, pointIndex, ON_CURVE);
      SetPointType(pointIndex, pt.pointType, pt.smooth);
      assert pointTypes.items == v.pointTypes;
      MoveEndPointsInPlace(c, 1);
    }

    /** `insertPoint`: a point inserted into a contour before `contourPointIndex`, which may be one past its last point. */
    method InsertPoint(contourIndex: int, contourPointIndex: int, pt: Point) returns (r: Outcome<PathError>)
      requires Valid()
      modifies coordinates, pointTypes, contourInfo
      ensures var q := old(ContourPointIndex(contourIndex, contourPointIndex, true));
              && (r.Pass? <==> q.Ok?)
              && (q.Err? ==> r == Fail(q.error) && Value() == old(Value()))
              && (q.Ok? ==> Value() == InsertPointValue(old(Value()), q.value.0, q.value.1, pt.x, pt.y, PackPointType(pt.pointType, pt.smooth)))
              && Valid()
              && (q.Ok? ==> var (c, i) := q.value;
                            Contours(Value())
                            == old(Contours(Value()))[c := InsertIntoContour(old(Contours(Value()))[c], i - old(ContourStart(contourInfo.items, c)),
                                                                             pt.x, pt.y, PackPointType(pt.pointType, pt.smooth))])
    {
      var q := ContourPointIndex(contourIndex, contourPointIndex, true);
      if q.Err? {
        return Fail(q.error);
      }
      var (c, pointIndex) := q.value;
      InsertPointContours(Value(), c, pointIndex, pt.x, pt.y, PackPointType(pt.pointType, pt.smooth));
      InsertPointAt(c, pointIndex, pt);
      r := Pass;
    }

    /** `appendPoint`: a point added after the last point of a contour. */
    method AppendPoint(contourIndex: int, pt: Point) returns (r: Outcome<PathError>)
      requires Valid()
      modifies coordinates, pointTypes, contourInfo
      ensures var n := NormalizeContourIndex(old(|contourInfo.items|), contourIndex, false);
              && (r.Pass? <==> n.Ok?)
              && (n.Err? ==> r == Fail(n.error) && Value() == old(Value()))
              && Valid()
              && (n.Ok? ==> var k := old(Contours(Value()))[n.value];
                            Contours(Value())
                            == old(Contours(Value()))[n.value := InsertIntoContour(k, |k.pointTypes|, pt.x, pt.y, PackPointType(pt.pointType, pt.smooth))])
    {
      var n := NormalizeContourIndex(|contourInfo.items|, contourIndex, false);
      if n.Err? {
        return Fail(n.error);
      }
      var c := n.value;
      ContourBounds(Value(), c);
      var pointIndex := contourInfo.items[c].endPoint + 1;
      InsertPointContours(Value(), c, pointIndex, pt.x, pt.y, PackPointType(pt.pointType, pt.smooth));
      InsertPointAt(c, pointIndex, pt);
      r := Pass;
    }

    /** `deletePoint`: a contour point removed. */
    method DeletePoint(contourIndex: int, contourPointIndex: int) returns (r: Outcome<PathError>)
      requires Valid()
      modifies coordinates, pointTypes, contourInfo
      ensures var q := old(ContourPointIndex(contourIndex, contourPointIndex, false));
              && (r.Pass? <==> q.Ok?)
              && (q.Err? ==> r == Fail(q.error) && Value() == old(Value()))
              && (q.Ok? ==> Value() == DeletePointValue(old(Value()), q.value.0, q.value.1))
              && Valid()
              && (q.Ok? ==> var (c, i) := q.value;
                            Contours(Value()) == old(Contours(Value()))[c := RemoveFromContour(old(Contours(Value()))[c], i - old(ContourStart(contourInfo.items, c)))])
    {
      var q := ContourPointIndex(contourIndex, contourPointIndex, false);
      if q.Err? {
        return Fail(q.error);
      }
      var (c, pointIndex) := q.value;
      ghost var p := Value();
      ContourBounds(p, c);
      coordinates.items := coordinates.items[..2 * pointIndex] + coordinates.items[2 * pointIndex + 2..];
      pointTypes.items := RemoveAt(pointTypes.items, pointIndex);
      MoveEndPointsInPlace(c, -1);
      DeletePointContours(p, c, pointIndex);
      r := Pass;
    }

    /** `getContourIndex`: binary search over the end points for the contour that holds a point index. */
    method GetContourIndex(pointIndex: int) returns (r: Option<nat>)
      requires Valid()
      ensures r.Some? <==> 0 <= pointIndex < |pointTypes.items|
      ensures r.Some? ==> r.value < |contourInfo.items|
                          && ContourStart(contourInfo.items, r.value) <= pointIndex <= contourInfo.items[r.value].endPoint
      ensures r == ContourIndexOf(Value(), pointIndex)
    {
      if pointIndex < 0 {
        return None;
      }
      var lo, hi := 0, |contourInfo.items|;
      while lo < hi
        invariant 0 <= lo <= hi <= |contourInfo.items|
        invariant forall c :: 0 <= c < lo ==> contourInfo.items[c].endPoint < pointIndex
        invariant forall c :: hi <= c < |contourInfo.items| ==> pointIndex <= contourInfo.items[c].endPoint
      {
        var mid := (lo + hi) / 2;
        if pointIndex <= contourInfo.items[mid].endPoint {
          forall c | mid <= c < |contourInfo.items| ensures pointIndex <= contourInfo.items[c].endPoint {
            EndPointsMonotone(contourInfo.items, mid, c);
          }
          hi := mid;
        } else {
          forall c | 0 <= c <= mid ensures contourInfo.items[c].endPoint < pointIndex {
            EndPointsMonotone(contourInfo.items, c, mid);
          }
          lo := mid + 1;
        }
      }
      if lo >= |contourInfo.items| {
        return None;
      }
      EndPointsMonotone(contourInfo.items, lo, |contourInfo.items| - 1);
      return Some(lo);
    }

    /** `getContourAndPointIndex`: the contour of an absolute point index, and the point's index within it. */
    method GetContourAndPointIndex(pointIndex: int) returns (r: Result<(nat, nat), PathError>)
      requires Valid()
      ensures r.Ok? <==> 0 <= pointIndex < |pointTypes.items|
      ensures r.Err? ==> r.error == PointIndexOutOfBounds(pointIndex)
      ensures r.Ok? ==> var (c, j) := r.value;
                        c < |contourInfo.items| && j < |Contours(Value())[c].pointTypes|
                        && ContourStart(contourInfo.items, c) + j == pointIndex
    {
      var c := GetContourIndex(pointIndex);
      if c.None? {
        return Err(PointIndexOutOfBounds(pointIndex));
      }
      r := Ok((c.value, pointIndex - ContourStart(contourInfo.items, c.value)));
    }

    /**
     * `isStartOrEndPoint`: -1 for the first point of an open contour, 1
     * for the last point of an open contour of two or more points, 0
     * otherwise.
     */
    method IsStartOrEndPoint(pointIndex: int) returns (r: Result<int, PathError>)
      requires Valid()
      ensures r.Ok? <==> 0 <= pointIndex < |pointTypes.items|
      ensures r.Err? ==> r.error == PointIndexOutOfBounds(pointIndex)
      ensures r.Ok? ==> forall c :: 0 <= c < |contourInfo.items| && ContourStart(contourInfo.items, c) <= pointIndex <= contourInfo.items[c].endPoint ==>
                          var info := contourInfo.items[c];
                          && (r.value == -1 <==> !info.isClosed && pointIndex == ContourStart(contourInfo.items, c))
                          && (r.value == 1 <==> !info.isClosed && pointIndex != ContourStart(contourInfo.items, c) && pointIndex == info.endPoint)
                          && (r.value == 0 <==> info.isClosed || ContourStart(contourInfo.items, c) < pointIndex < info.endPoint)
      ensures r == StartOrEndValue(Value(), pointIndex)
    {
      var q := GetContourAndPointIndex(pointIndex);
      if q.Err? {
        return Err(q.error);
      }
      var (c, j) := q.value;
      var info := contourInfo.items[c];
      forall d | 0 <= d < |contourInfo.items| && ContourStart(contourInfo.items, d) <= pointIndex <= contourInfo.items[d].endPoint
        ensures d == c
      {
        ContainingContourUnique(Value(), c, d, pointIndex);
      }
      if !info.isClosed && j == 0 {
        r := Ok(-1);
      } else if !info.isClosed && pointIndex == info.endPoint {
        r := Ok(1);
      } else {
        r := Ok(0);
      }
    }

    //
    // Bounds
    //

    /** `_getControlBounds`: the bounds of the points `startPoint..endPoint`, none when there are none. */
    method ControlBoundsOf(startPoint: nat, endPoint: int) returns (b: Option<Bounds>)
      requires |coordinates.items| == 2 * |pointTypes.items| && endPoint < |pointTypes.items|
      ensures b.None? <==> endPoint < startPoint
      ensures b.Some? ==> IsBoundsOf(b.value, coordinates.items, startPoint, endPoint)
    {
      if endPoint < startPoint {
        return None;
      }
      var cs := coordinates.items;
      var xMin, yMin := X(cs, startPoint), Y(cs, startPoint);
      var xMax, yMax := xMin, yMin;
      ghost var ixMin, iyMin, ixMax, iyMax := startPoint, startPoint, startPoint, startPoint;
      var i := startPoint + 1;
      while i <= endPoint
        invariant startPoint < i <= endPoint + 1
        invariant forall j :: startPoint <= j < i ==> xMin <= X(cs, j) <= xMax && yMin <= Y(cs, j) <= yMax
        invariant startPoint <= ixMin < i && X(cs, ixMin) == xMin
        invariant startPoint <= ixMax < i && X(cs, ixMax) == xMax
        invariant startPoint <= iyMin < i && Y(cs, iyMin) == yMin
        invariant startPoint <= iyMax < i && Y(cs, iyMax) == yMax
      {
        var x, y := X(cs, i), Y(cs, i);
        if x < xMin { ixMin := i; }
        if y < yMin { iyMin := i; }
        if x > xMax { ixMax := i; }
        if y > yMax { iyMax := i; }
        xMin, yMin := Min(x, xMin), Min(y, yMin);
        xMax, yMax := Max(x, xMax), Max(y, yMax);
        i := i + 1;
      }
      b := Some(Bounds(xMin, yMin, xMax, yMax));
    }

    /** `getControlBounds`: the bounds of all points. */
    method GetControlBounds() returns (b: Option<Bounds>)
      requires Valid()
      ensures b.None? <==> |pointTypes.items| == 0
      ensures b.Some? ==> IsBoundsOf(b.value, coordinates.items, 0, |pointTypes.items| - 1)
    {
      b := ControlBoundsOf(0, |pointTypes.items| - 1);
    }

    /** `getControlBoundsForContour`: the bounds of one contour's points. */
    method GetControlBoundsForContour(contourIndex: int) returns (r: Result<Option<Bounds>, PathError>)
      requires Valid()
      ensures var n := NormalizeContourIndex(|contourInfo.items|, contourIndex, false);
              && (r.Ok? <==> n.Ok?)
              && (r.Err? ==> r.error == n.error)
              && (r.Ok? ==> var c := n.value;
                            && (r.value.None? <==> |Contours(Value())[c].pointTypes| == 0)
                            && (r.value.Some? ==>
                                  (&& ContourStart(contourInfo.items, c) <= contourInfo.items[c].endPoint < |pointTypes.items|
                                   && IsBoundsOf(r.value.value, coordinates.items, ContourStart(contourInfo.items, c), contourInfo.items[c].endPoint))))
    {
      var n := NormalizeContourIndex(|contourInfo.items|, contourIndex, false);
      if n.Err? {
        return Err(n.error);
      }
      var c := n.value;
      ContourBounds(Value(), c);
      var b := ControlBoundsOf(ContourStart(contourInfo.items, c), contourInfo.items[c].endPoint);
      r := Ok(b);
    }

    //
    // Iteration
    //

    /** `_iterPointsFromTo`: the points `startPoint..endPoint`, read with `getPoint`. */
    method PointsFromTo(startPoint: nat, endPoint: int) returns (points: seq<Point>)
      requires |coordinates.items| == 2 * |pointTypes.items| && endPoint < |pointTypes.items|
      ensures |points| == if endPoint < startPoint then 0 else endPoint + 1 - startPoint
      ensures forall j :: 0 <= j < |points| ==> GetPoint(startPoint + j) == Some(points[j])
    {
      points := [];
      var index := startPoint;
      while index <= endPoint
        invariant startPoint <= index && (index == startPoint || index <= endPoint + 1)
        invariant |points| == index - startPoint
        invariant forall j :: 0 <= j < |points| ==> GetPoint(startPoint + j) == Some(points[j])
      {
        points := points + [GetPoint(index).value];
        index := index + 1;
      }
    }

    /** `iterPoints`: every point in order. */
    method IterPoints() returns (points: seq<Point>)
      requires Valid()
      ensures |points| == |pointTypes.items|
      ensures forall j :: 0 <= j < |points| ==> GetPoint(j) == Some(points[j])
    {
      points := PointsFromTo(0, |pointTypes.items| - 1);
    }

    /** `iterContours`: every contour in order. */
    method IterContours() returns (cs: seq<PackedContour>)
      requires Valid()
      ensures cs == Contours(Value())
    {
      cs := [];
      var i := 0;
      while i < |contourInfo.items|
        invariant i <= |contourInfo.items|
        invariant cs == Contours(Value())[..i]
      {
        cs := cs + [GetContour(i).value];
        i := i + 1;
      }
    }

    /** `_getUnpackedContour`: a contour's points read with `getPoint`. */
    method UnpackedContourAt(c: nat) returns (u: UnpackedContour)
      requires Valid() && c < |contourInfo.items|
      ensures u == UnpackContour(Contours(Value())[c])
    {
      ghost var p := Value();
      ContourBounds(p, c);
      var startPoint := ContourStart(contourInfo.items, c);
      var points := PointsFromTo(startPoint, contourInfo.items[c].endPoint);
      UnpackedFromPoints(p, c, points);
      u := UnpackedContour(points, contourInfo.items[c].isClosed);
    }

    /** `getUnpackedContour`. */
    method GetUnpackedContour(contourIndex: int) returns (r: Result<UnpackedContour, PathError>)
      requires Valid()
      ensures var n := NormalizeContourIndex(|contourInfo.items|, contourIndex, false);
              && (r.Ok? <==> n.Ok?)
              && (r.Err? ==> r.error == n.error)
              && (r.Ok? ==> r.value == UnpackContour(Contours(Value())[n.value]))
    {
      var n := NormalizeContourIndex(|contourInfo.items|, contourIndex, false);
      if n.Err? {
        return Err(n.error);
      }
      var u := UnpackedContourAt(n.value);
      r := Ok(u);
    }

    /** `iterUnpackedContours`, and `unpackedContours` which collects it. */
    method IterUnpackedContours() returns (us: seq<UnpackedContour>)
      requires Valid()
      ensures us == UnpackedContours(Value())
    {
      us := [];
      var i := 0;
      while i < |contourInfo.items|
        invariant i <= |contourInfo.items|
        invariant us == UnpackedContours(Value())[..i]
      {
        var u := UnpackedContourAt(i);
        us := us + [u];
        i := i + 1;
      }
    }

    /** `setUnpackedContour`. */
    method SetUnpackedContour(contourIndex: int, u: UnpackedContour) returns (r: Outcome<PathError>)
      requires Valid()
      modifies coordinates, pointTypes, contourInfo
      ensures var n := NormalizeContourIndex(old(|contourInfo.items|), contourIndex, false);
              && (r.Pass? <==> n.Ok?)
              && (n.Err? ==> r == Fail(n.error) && Value() == old(Value()))
              && Valid()
              && (n.Ok? ==> Contours(Value()) == old(Contours(Value()))[n.value := PackedOf(u)])
    {
      var k := PackContour(u);
      r := SetContour(contourIndex, k);
    }

    /** `appendUnpackedContour`. */
    method AppendUnpackedContour(u: UnpackedContour)
      requires Valid()
      modifies coordinates, pointTypes, contourInfo
      ensures Value() == ConcatValue(old(Value()), SinglePath(PackedOf(u)))
      ensures Valid() && Contours(Value()) == old(Contours(Value())) + [PackedOf(u)]
    {
      var k := PackContour(u);
      AppendContour(k);
    }

    /** `insertUnpackedContour`. */
    method InsertUnpackedContour(contourIndex: int, u: UnpackedContour) returns (r: Outcome<PathError>)
      requires Valid()
      modifies coordinates, pointTypes, contourInfo
      ensures var n := NormalizeContourIndex(old(|contourInfo.items|), contourIndex, true);
              && (r.Pass? <==> n.Ok?)
              && (n.Err? ==> r == Fail(n.error) && Value() == old(Value()))
              && Valid()
              && (n.Ok? ==> Contours(Value()) == InsertAt(old(Contours(Value())), n.value, PackedOf(u)))
    {
      var k := PackContour(u);
      r := InsertContour(contourIndex, k);
    }

    /** `fromUnpackedContours`: a new path holding the contours, packed, in order. */
    static method FromUnpackedContours(us: seq<UnpackedContour>) returns (path: VarPackedPath)
      ensures fresh(path) && fresh(path.coordinates) && fresh(path.pointTypes) && fresh(path.contourInfo)
      ensures path.Value() == FromUnpackedContoursValue(us) && path.Valid()
      ensures Contours(path.Value()) == seq(|us|, c requires 0 <= c < |us| => PackedOf(us[c]))
    {
      ghost var packed := seq(|us|, c requires 0 <= c < |us| => PackedOf(us[c]));
      path := new VarPackedPath.Empty();
      var i := 0;
      while i < |us|
        invariant i <= |us|
        invariant fresh(path) && fresh(path.coordinates) && fresh(path.pointTypes) && fresh(path.contourInfo)
        invariant path.Valid() && path.Value() == Flatten(packed[..i])
      {
        path.AppendUnpackedContour(us[i]);
        FlattenSnoc(packed, i);
        i := i + 1;
      }
      assert packed[..i] == packed;
      FlattenContours(packed);
    }

    /** `iterHandles`: for every contour, the neighbouring points whose types differ, wrapping around a closed contour. */
    method IterHandles() returns (handles: seq<((real, real), (real, real))>)
      requires Valid()
      ensures HandlesAt(coordinates.items, handles, HandlesOfContours(Value(), 0))
    {
      var coords, types, ci := coordinates.items, pointTypes.items, contourInfo.items;
      ghost var p := PathValue(coords, types, ci);
      handles := [];
      ghost var done: seq<(nat, nat)> := [];
      var startPoint: nat := 0;
      var c := 0;
      while c < |ci|
        invariant c <= |ci| && startPoint == ContourStart(ci, c)
        invariant PathHandlesUpTo(p, c, handles, done)
      {
        ContourBounds(p, c);
        var endPoint := ci[c].endPoint;
        var contourHandles := IterContourHandles(p, coords, types, startPoint, endPoint, ci[c].isClosed);
        PathHandlesStep(p, c, handles, done, contourHandles);
        handles := handles + contourHandles;
        done := done + ContourHandles(p, startPoint, endPoint, ci[c].isClosed);
        startPoint := endPoint + 1;
        c := c + 1;
      }
    }

    /** `iterPointsInRect`: every point `inRect` accepts, with its index. */
    method IterPointsInRect(inRect: (real, real) -> bool) returns (hits: seq<(Point, nat)>)
      requires Valid()
      ensures |hits| == |IndicesInRect(coordinates.items, inRect, |pointTypes.items|)|
      ensures forall k :: 0 <= k < |hits| ==>
                (hits[k].1 == IndicesInRect(coordinates.items, inRect, |pointTypes.items|)[k] && GetPoint(hits[k].1) == Some(hits[k].0))
    {
      var points := IterPoints();
      hits := [];
      var i := 0;
      while i < |points|
        invariant i <= |points|
        invariant |hits| == |IndicesInRect(coordinates.items, inRect, i)|
        invariant forall k :: 0 <= k < |hits| ==>
                    (hits[k].1 == IndicesInRect(coordinates.items, inRect, i)[k] && GetPoint(hits[k].1) == Some(hits[k].0))
      {
        if inRect(points[i].x, points[i].y) {
          hits := hits + [(points[i], i)];
        }
        i := i + 1;
      }
    }

    /**
     * `firstPointIndexNearPoint`: the first point `near` accepts, other
     * than `skipPointIndex`. `near` stands for the test against the square
     * of half-width `margin` around the given point.
     */
    method FirstPointIndexNearPoint(near: (real, real) -> bool, skipPointIndex: Option<int>) returns (r: Option<nat>)
      requires Valid()
      ensures r.Some? ==> r.value < |pointTypes.items| && Some(r.value as int) != skipPointIndex
                          && near(X(coordinates.items, r.value), Y(coordinates.items, r.value))
      ensures r.Some? ==> forall j :: 0 <= j < r.value && near(X(coordinates.items, j), Y(coordinates.items, j)) ==> Some(j) == skipPointIndex
      ensures r.None? ==> forall j :: 0 <= j < |pointTypes.items| && near(X(coordinates.items, j), Y(coordinates.items, j)) ==> Some(j) == skipPointIndex
    {
      var hits := IterPointsInRect(near);
      ghost var n := |pointTypes.items|;
      var k := 0;
      while k < |hits|
        invariant k <= |hits|
        invariant forall m :: 0 <= m < k ==> Some(IndicesInRect(coordinates.items, near, n)[m] as int) == skipPointIndex
      {
        if Some(hits[k].1 as int) != skipPointIndex {
          EarlierHitsSkipped(coordinates.items, near, n, skipPointIndex, k);
          return Some(hits[k].1);
        }
        k := k + 1;
      }
      AllHitsSkipped(coordinates.items, near, n, skipPointIndex);
      r := None;
    }

    //
    // Copying, the pen, and arithmetic
    //

    /** `copy`: a path over new containers with the same contents. */
    method Copy() returns (path: VarPackedPath)
      ensures fresh(path) && fresh(path.coordinates) && fresh(path.pointTypes) && fresh(path.contourInfo)
      ensures path.Value() == Value()
    {
      var cs := new VarArray(coordinates.items);
      var ts := new PointTypeArray(pointTypes.items);
      var ci := new ContourInfoArray(contourInfo.items);
      path := new VarPackedPath(cs, ts, ci);
    }

    /** `_appendPoint`: a point added to the end of the last contour; without a contour, a `TypeError`. */
    method AppendPointToLastContour(x: real, y: real, pointType: int) returns (r: Outcome<PathError>)
      modifies coordinates, pointTypes, contourInfo
      ensures r.Pass? <==> old(|contourInfo.items|) > 0
      ensures r.Fail? ==> r.error == NoCurrentContour && Value() == old(Value())
      ensures r.Pass? ==> Value() == AppendPointsValue(old(Value()), [x, y], [pointType])
    {
      if |contourInfo.items| == 0 {
        return Fail(NoCurrentContour);
      }
      ghost var before := contourInfo.items;
      var last := |contourInfo.items| - 1;
      contourInfo.items := contourInfo.items[last := contourInfo.items[last].(endPoint := contourInfo.items[last].endPoint + 1)];
      coordinates.items := coordinates.items + [x, y];
      pointTypes.items := pointTypes.items + [pointType];
      assert forall j :: 0 <= j < |before| ==> contourInfo.items[j] == MoveEndPoints(before, last, 1)[j];
      r := Pass;
    }

    /** `moveTo`: a new open contour holding one on-curve point. */
    method MoveTo(x: real, y: real)
      requires Valid()
      modifies coordinates, pointTypes, contourInfo
      ensures Value() == ConcatValue(old(Value()), SinglePath(PackedContour([x, y], [ON_CURVE], false)))
      ensures Valid() && Contours(Value()) == old(Contours(Value())) + [PackedContour([x, y], [ON_CURVE], false)]
    {
      ghost var p := Value();
      var empty := PackedContour([], [], false);
      AppendContour(empty);
      ghost var q := Value();
      var r := AppendPointToLastContour(x, y, ON_CURVE);
      AppendPointsContours(q, [x, y], [ON_CURVE]);
      var k := PackedContour([x, y], [ON_CURVE], false);
      assert ExtendContour(empty, [x, y], [ON_CURVE]) == k;
      assert Contours(q) == Contours(p) + [empty];
      assert (Contours(p) + [empty])[|Contours(p)| := k] == Contours(p) + [k];
      SinglePathContours(k);
      ConcatContours(p, SinglePath(k));
      ConcatWf(p, SinglePath(k));
      ContoursDetermine(Value(), ConcatValue(p, SinglePath(k)));
    }

    /** `lineTo`: an on-curve point added to the last contour. */
    method LineTo(x: real, y: real) returns (r: Outcome<PathError>)
      requires Valid()
      modifies coordinates, pointTypes, contourInfo
      ensures r.Pass? <==> old(|contourInfo.items|) > 0
      ensures r.Fail? ==> r.error == NoCurrentContour && Value() == old(Value())
      ensures r.Pass? ==> Value() == AppendPointsValue(old(Value()), [x, y], [ON_CURVE])
      ensures Valid()
    {
      ghost var p := Value();
      r := AppendPointToLastContour(x, y, ON_CURVE);
      if r.Pass? {
        AppendPointsContours(p, [x, y], [ON_CURVE]);
      }
    }

    /** `cubicCurveTo`: two cubic off-curve points and an on-curve point added to the last contour. */
    method CubicCurveTo(x1: real, y1: real, x2: real, y2: real, x3: real, y3: real) returns (r: Outcome<PathError>)
      requires Valid()
      modifies coordinates, pointTypes, contourInfo
      ensures r.Pass? <==> old(|contourInfo.items|) > 0
      ensures r.Fail? ==> r.error == NoCurrentContour && Value() == old(Value())
      ensures r.Pass? ==> Value() == AppendPointsValue(old(Value()), [x1, y1, x2, y2, x3, y3],
                                                       [OFF_CURVE_CUBIC, OFF_CURVE_CUBIC, ON_CURVE])
      ensures Valid()
    {
      ghost var p := Value();
      r := AppendPointToLastContour(x1, y1, OFF_CURVE_CUBIC);
      if r.Fail? {
        return;
      }
      var r2 := AppendPointToLastContour(x2, y2, OFF_CURVE_CUBIC);
      var r3 := AppendPointToLastContour(x3, y3, ON_CURVE);
      AppendPointsTwice(p, [x1, y1], [OFF_CURVE_CUBIC], [x2, y2], [OFF_CURVE_CUBIC]);
      AppendPointsTwice(p, [x1, y1] + [x2, y2], [OFF_CURVE_CUBIC] + [OFF_CURVE_CUBIC], [x3, y3], [ON_CURVE]);
      assert [x1, y1] + [x2, y2] + [x3, y3] == [x1, y1, x2, y2, x3, y3];
      assert [OFF_CURVE_CUBIC] + [OFF_CURVE_CUBIC] + [ON_CURVE] == [OFF_CURVE_CUBIC, OFF_CURVE_CUBIC, ON_CURVE];
      AppendPointsContours(p, [x1, y1, x2, y2, x3, y3], [OFF_CURVE_CUBIC, OFF_CURVE_CUBIC, ON_CURVE]);
    }

    /**
     * `quadraticCurveTo`: quadratic off-curve points and a final on-curve
     * point, from coordinate pairs; an odd count raises.
     */
    method QuadraticCurveTo(args: seq<real>) returns (r: Outcome<PathError>)
      requires Valid() && |args| != 0
      modifies coordinates, pointTypes, contourInfo
      ensures |args| % 2 == 1 ==> r == Fail(OddQuadArgumentCount) && Value() == old(Value())
      ensures |args| % 2 == 0 ==> (r.Pass? <==> old(|contourInfo.items|) > 0)
      ensures |args| % 2 == 0 && r.Fail? ==> r.error == NoCurrentContour && Value() == old(Value())
      ensures r.Pass? ==> Value() == AppendPointsValue(old(Value()), args, QuadTypes(|args| / 2))
      ensures Valid()
    {
      var numArgs := |args|;
      if numArgs % 2 == 1 {
        return Fail(OddQuadArgumentCount);
      }
      ghost var p := Value();
      ghost var types: seq<int> := [];
      if |contourInfo.items| > 0 {
        AppendNoPoints(p);
      }
      var i := 0;
      while i < numArgs - 2
        invariant 0 <= i <= numArgs - 2 && i == 2 * |types|
        invariant types == QuadTypes(|types| + 1)[..|types|]
        invariant |p.contourInfo| == 0 ==> i == 0 && Value() == p
        invariant |p.contourInfo| > 0 ==> Value() == AppendPointsValue(p, args[..i], types)
      {
        var step := AppendPointToLastContour(args[i], args[i + 1], OFF_CURVE_QUAD);
        if step.Fail? {
          return step;
        }
        AppendPointsTwice(p, args[..i], types, [args[i], args[i + 1]], [OFF_CURVE_QUAD]);
        assert args[..i] + [args[i], args[i + 1]] == args[..i + 2];
        types := types + [OFF_CURVE_QUAD];
        i := i + 2;
      }
      r := AppendPointToLastContour(args[i], args[i + 1], ON_CURVE);
      if r.Pass? {
        AppendPointsTwice(p, args[..i], types, [args[i], args[i + 1]], [ON_CURVE]);
        assert args[..i] + [args[i], args[i + 1]] == args;
        assert types + [ON_CURVE] == QuadTypes(numArgs / 2);
        AppendPointsContours(p, args, QuadTypes(numArgs / 2));
      }
    }

    /** `closePath`: the last contour closed; without a contour, a `TypeError`. */
    method ClosePath() returns (r: Outcome<PathError>)
      requires Valid()
      modifies contourInfo
      ensures r.Pass? <==> old(|contourInfo.items|) > 0
      ensures r.Fail? ==> r.error == NoCurrentContour && Value() == old(Value())
      ensures r.Pass? ==> Value() == CloseLastContourValue(old(Value()))
      ensures Valid()
      ensures r.Pass? ==> var c := |contourInfo.items| - 1;
                          Contours(Value()) == old(Contours(Value()))[c := old(Contours(Value()))[c].(isClosed := true)]
    {
      if |contourInfo.items| == 0 {
        return Fail(NoCurrentContour);
      }
      ghost var p := Value();
      var last := |contourInfo.items| - 1;
      contourInfo.items := contourInfo.items[last := contourInfo.items[last].(isClosed := true)];
      CloseLastContourContours(p);
      r := Pass;
    }

    /** `_ensureCompatibility`: the same contour list and the same point types up to the smooth flag. */
    method EnsureCompatibility(other: VarPackedPath) returns (r: Outcome<PathError>)
      ensures r.Pass? <==> Compatible(Value(), other.Value())
      ensures r.Fail? ==> r.error == PathsNotCompatible
    {
      if contourInfo.items != other.contourInfo.items {
        return Fail(PathsNotCompatible);
      }
      var same := PointTypesEquals(pointTypes.items, other.pointTypes.items);
      if !same {
        return Fail(PathsNotCompatible);
      }
      r := Pass;
    }

    /** The path `addItemwise`, `subItemwise` and `mulScalar` return: new coordinates over this path's point types and contours. */
    method WithCoordinates(newCoordinates: seq<real>) returns (path: VarPackedPath)
      ensures fresh(path) && fresh(path.coordinates)
      ensures path.pointTypes == pointTypes && path.contourInfo == contourInfo
      ensures path.coordinates.items == newCoordinates
    {
      var cs := new VarArray(newCoordinates);
      path := new VarPackedPath(cs, pointTypes, contourInfo);
    }

    /** `addItemwise` and `subItemwise` with another path: compatible paths combined coordinate by coordinate. */
    method CombineItemwise(other: VarPackedPath, f: (real, real) -> real) returns (r: Result<VarPackedPath, PathError>)
      ensures !Compatible(Value(), other.Value()) ==> r == Err(PathsNotCompatible)
      ensures Compatible(Value(), other.Value()) ==>
                var q := ItemwiseChecked(coordinates.items, other.coordinates.items, f);
                && (r.Ok? <==> q.Ok?)
                && (r.Err? ==> r.error == q.error)
                && (r.Ok? ==> fresh(r.value) && fresh(r.value.coordinates)
                              && r.value.pointTypes == pointTypes && r.value.contourInfo == contourInfo
                              && r.value.coordinates.items == q.value)
      ensures Valid() && other.Valid() ==> (r.Ok? <==> Compatible(Value(), other.Value()))
      ensures r.Ok? && Valid() ==> r.value.Valid()
    {
      var compatible := EnsureCompatibility(other);
      if compatible.Fail? {
        return Err(compatible.error);
      }
      var q := ItemwiseChecked(coordinates.items, other.coordinates.items, f);
      if q.Err? {
        return Err(q.error);
      }
      var path := WithCoordinates(q.value);
      r := Ok(path);
    }

    /** `addItemwise`, `subItemwise` with a coordinate array: the coordinates combined, the structure shared. */
    method CombineItemwiseArray(other: seq<real>, f: (real, real) -> real) returns (r: Result<VarPackedPath, PathError>)
      ensures var q := ItemwiseChecked(coordinates.items, other, f);
              && (r.Ok? <==> q.Ok?)
              && (r.Err? ==> r.error == q.error)
              && (r.Ok? ==> fresh(r.value) && fresh(r.value.coordinates)
                            && r.value.pointTypes == pointTypes && r.value.contourInfo == contourInfo
                            && r.value.coordinates.items == q.value)
      ensures r.Ok? && Valid() ==> r.value.Valid()
    {
      var q := ItemwiseChecked(coordinates.items, other, f);
      if q.Err? {
        return Err(q.error);
      }
      var path := WithCoordinates(q.value);
      r := Ok(path);
    }

    method AddItemwise(other: VarPackedPath) returns (r: Result<VarPackedPath, PathError>)
      ensures r.Ok? <==> Compatible(Value(), other.Value()) && |coordinates.items| == |other.coordinates.items|
      ensures r.Ok? ==> fresh(r.value.coordinates) && r.value.Value() == Value().(coordinates := Itemwise(coordinates.items, other.coordinates.items, Add))
    {
      r := CombineItemwise(other, Add);
    }

    method SubItemwise(other: VarPackedPath) returns (r: Result<VarPackedPath, PathError>)
      ensures r.Ok? <==> Compatible(Value(), other.Value()) && |coordinates.items| == |other.coordinates.items|
      ensures r.Ok? ==> fresh(r.value.coordinates) && r.value.Value() == Value().(coordinates := Itemwise(coordinates.items, other.coordinates.items, Sub))
    {
      r := CombineItemwise(other, Sub);
    }

    /** `mulScalar`: every coordinate scaled, the structure shared. */
    method MulScalar(scalar: real) returns (path: VarPackedPath)
      ensures fresh(path) && fresh(path.coordinates)
      ensures path.Value() == Value().(coordinates := Scaled(coordinates.items, scalar))
      ensures Valid() ==> path.Valid()
    {
      path := WithCoordinates(Scaled(coordinates.items, scalar));
    }

    /** `transformed`: every point mapped by the transformation, the structure shared. */
    method Transformed(transformPoint: (real, real) -> (real, real)) returns (path: VarPackedPath)
      requires Valid()
      ensures fresh(path) && fresh(path.coordinates)
      ensures path.pointTypes == pointTypes && path.contourInfo == contourInfo && path.Valid()
      ensures forall j :: 0 <= j < |pointTypes.items| ==>
                (X(path.coordinates.items, j), Y(path.coordinates.items, j)) == transformPoint(X(coordinates.items, j), Y(coordinates.items, j))
    {
      var cs := coordinates.items;
      var out: seq<real> := [];
      var j := 0;
      while j < |pointTypes.items|
        invariant j <= |pointTypes.items| && |out| == 2 * j
        invariant forall k :: 0 <= k < j ==> (X(out, k), Y(out, k)) == transformPoint(X(cs, k), Y(cs, k))
      {
        var xy := transformPoint(X(cs, j), Y(cs, j));
        out := out + [xy.0, xy.1];
        j := j + 1;
      }
      path := WithCoordinates(out);
    }

    //
    // Segments, drawing, concatenation, integrity
    //

    /** `getContourSegmentPointIndices`. */
    method GetContourSegmentPointIndices(contourIndex: int) returns (r: Result<ContourSegmentInfo, PathError>)
      requires Valid()
      ensures var n := NormalizeContourIndex(|contourInfo.items|, contourIndex, false);
              && (n.Err? ==> r == Err(n.error))
              && (n.Ok? ==> var c := n.value;
                            var start := ContourStart(contourInfo.items, c);
                            0 <= start <= contourInfo.items[c].endPoint + 1 <= |pointTypes.items|
                            && var segments := PathDrawing.ContourSegments(pointTypes.items, start, contourInfo.items[c].endPoint + 1 - start,
                                                                            contourInfo.items[c].isClosed);
                               && (r.Ok? <==> segments.Ok?)
                               && (r.Ok? ==> r.value == ContourSegmentInfo(contourInfo.items[c].isClosed, segments.value))
                               && (r.Err? ==> r.error == segments.error))
    {
      var n := NormalizeContourIndex(|contourInfo.items|, contourIndex, false);
      if n.Err? {
        return Err(n.error);
      }
      var c := n.value;
      ContourBounds(Value(), c);
      var start := ContourStart(contourInfo.items, c);
      var info := contourInfo.items[c];
      var segments := PathDrawing.IterContourSegmentPointIndices(pointTypes.items, start, info.endPoint + 1 - start, info.isClosed);
      if segments.Err? {
        return Err(segments.error);
      }
      r := Ok(ContourSegmentInfo(info.isClosed, segments.value));
    }

    /**
     * `drawToPath2d`: every contour drawn in turn; an illegal point type ends
     * the drawing. A contour made only of off-curve quad points is drawn from
     * the true midpoint of its last and first points (`PathDrawing.ContourOps`),
     * not from the coordinates the source reads for a contour that is not the
     * first (`PathDrawing.ContourOpsAsWritten`).
     */
    method DrawToPath2d() returns (ops: seq<PathDrawing.DrawOp>, ok: bool)
      requires Valid()
      ensures (ops, ok) == PathDrawing.PathOps(Value())
    {
      ops, ok := PathDrawing.DrawPath(Value());
    }

    /** `drawContourToPath2d`: one contour drawn. */
    method DrawContourToPath2d(contourIndex: int) returns (r: Result<(seq<PathDrawing.DrawOp>, bool), PathError>)
      requires Valid()
      ensures var n := NormalizeContourIndex(|contourInfo.items|, contourIndex, false);
              && (n.Err? ==> r == Err(n.error))
              && (n.Ok? ==> r == Ok(PathDrawing.ContourDrawn(Value(), n.value)))
    {
      var n := NormalizeContourIndex(|contourInfo.items|, contourIndex, false);
      if n.Err? {
        return Err(n.error);
      }
      var ops, ok := PathDrawing.DrawPathContour(Value(), n.value);
      r := Ok((ops, ok));
    }

    /** `concat`: a new path with the other path's contours after this one's. */
    method Concat(other: VarPackedPath) returns (result: VarPackedPath)
      ensures fresh(result) && fresh(result.coordinates) && fresh(result.pointTypes) && fresh(result.contourInfo)
      ensures result.Value() == ConcatValue(Value(), other.Value())
      ensures Valid() && other.Valid() ==> result.Valid()
      ensures Valid() && other.Valid() ==> Contours(result.Value()) == Contours(Value()) + Contours(other.Value())
    {
      result := new VarPackedPath.Empty();
      result.coordinates := new VarArray(coordinates.items + other.coordinates.items);
      result.pointTypes := new PointTypeArray(pointTypes.items + other.pointTypes.items);
      result.contourInfo := new ContourInfoArray(contourInfo.items + other.contourInfo.items);
      var endPointOffset := |pointTypes.items|;
      result.MoveEndPointsInPlace(|contourInfo.items|, endPointOffset);
      assert (contourInfo.items + other.contourInfo.items)[..|contourInfo.items|] == contourInfo.items;
      assert (contourInfo.items + other.contourInfo.items)[|contourInfo.items|..] == other.contourInfo.items;
      if Valid() && other.Valid() {
        ConcatWf(Value(), other.Value());
        ConcatContours(Value(), other.Value());
      }
    }

    /** `_checkIntegrity`: whether the contour list and the point lists disagree. */
    method CheckIntegrity() returns (bad: bool)
      ensures bad <==> !Valid()
    {
      var ci := contourInfo.items;
      bad := false;
      var startPoint := 0;
      var c := 0;
      while c < |ci|
        invariant c <= |ci| && startPoint == ContourStart(ci, c)
        invariant !bad <==> forall d :: 0 <= d < c ==> 0 <= ContourStart(ci, d) <= ci[d].endPoint + 1
      {
        if ci[c].endPoint < startPoint - 1 {
          bad := true;
        }
        startPoint := ci[c].endPoint + 1;
        c := c + 1;
      }
      if startPoint != |pointTypes.items| {
        bad := true;
      }
      if |coordinates.items| != 2 * |pointTypes.items| {
        bad := true;
      }
    }
  }

  /** The point types `quadraticCurveTo` appends for `n` points: quadratic off-curve points, then an on-curve point. */
  function QuadTypes(n: nat): (ts: seq<int>)
    requires n > 0
    ensures |ts| == n && ts[n - 1] == ON_CURVE
    ensures forall i :: 0 <= i < n - 1 ==> ts[i] == OFF_CURVE_QUAD
  {
    seq(n, i requires 0 <= i < n => if i == n - 1 then ON_CURVE else OFF_CURVE_QUAD)
  }
}
