/**
 * The index and selection logic of the scene controller: reversing the
 * direction of contours and remapping the point selection with them,
 * rotating a closed contour's start point, the contours a selection
 * touches, arrow-key nudges, the path connect decision, the order of the
 * editing layers and the bookkeeping of decomposing components.
 */
module SceneController {
  import opened Base
  import opened PathData
  import opened VarPath

  /** A `TypeError`: a property read on `undefined` (a selected point index outside the path). */
  datatype SceneError = TypeError

  //
  // Contours of points, and where reversal sends a point
  //

  /** The first point and the number of points of contour `c`. */
  function StartOf(p: PathValue, c: nat): nat
    requires Wf(p) && c < |p.contourInfo|
  {
    ContourBounds(p, c);
    ContourStart(p.contourInfo, c)
  }

  function SizeOf(p: PathValue, c: nat): (n: nat)
    requires Wf(p) && c < |p.contourInfo|
    ensures n == |Contours(p)[c].pointTypes|
  {
    ContourBounds(p, c);
    p.contourInfo[c].endPoint + 1 - ContourStart(p.contourInfo, c)
  }

  /**
   * Where reversing a contour of `n` points sends its point `j`: a closed
   * contour keeps its start point and runs the others backwards, an open
   * contour swaps its ends.
   */
  function ReversedRelative(n: nat, isClosed: bool, j: nat): (r: nat)
    requires j < n
    ensures r < n
  {
    if isClosed then (if j == 0 then 0 else n - j) else n - 1 - j
  }

  /** The same for the absolute index `i` of a point of the contour of `n` points starting at `start`. */
  function ReversedWithin(start: nat, n: nat, isClosed: bool, i: int): (r: nat)
    requires start <= i < start + n
    ensures start <= r < start + n
  {
    start + ReversedRelative(n, isClosed, i - start)
  }

  /** `reversePointSelection` for one point: the new index of point `i`, or the `TypeError` an index outside the path raises. */
  function ReversedIndex(p: PathValue, i: int): (r: Result<nat, SceneError>)
    requires Wf(p)
    ensures r.Ok? <==> 0 <= i < |p.pointTypes|
  {
    match ContourIndexOf(p, i)
    case None => Err(TypeError)
    case Some(c) =>
      var s := StartOf(p, c);
      Ok(ReversedWithin(s, SizeOf(p, c), p.contourInfo[c].isClosed, i))
  }

  /** A reversed index lies in the contour of the point it came from, and reversing it again gives that point back. */
  lemma ReversedIndexInvolution(p: PathValue, i: int)
    requires Wf(p) && 0 <= i < |p.pointTypes|
    ensures var r := ReversedIndex(p, i).value;
            && ContourIndexOf(p, r) == ContourIndexOf(p, i)
            && ReversedIndex(p, r) == Ok(i)
  {
    var c := ContourIndexOf(p, i).value;
    var r := ReversedIndex(p, i).value;
    var s := StartOf(p, c);
    ContourBounds(p, c);
    assert s <= r < s + SizeOf(p, c);
    var d := ContourIndexOf(p, r).value;
    ContainingContourUnique(p, c, d, r);
  }

  /** Every selected point lies in the path. */
  predicate AllInPath(p: PathValue, selection: seq<int>) {
    forall k :: 0 <= k < |selection| ==> 0 <= selection[k] < |p.pointTypes|
  }

  /** A prefix one longer is in the path when the shorter one and the next point are. */
  lemma AllInPathPrefix(p: PathValue, selection: seq<int>, k: nat)
    requires k < |selection|
    ensures AllInPath(p, selection[..k + 1]) <==> AllInPath(p, selection[..k]) && 0 <= selection[k] < |p.pointTypes|
    ensures AllInPath(p, selection) ==> 0 <= selection[k] < |p.pointTypes|
  {
    assert forall j :: 0 <= j < k ==> selection[..k + 1][j] == selection[..k][j];
  }

  function ReversedIndices(p: PathValue, selection: seq<int>): (rs: seq<Result<nat, SceneError>>)
    requires Wf(p)
    ensures |rs| == |selection| && forall k :: 0 <= k < |selection| ==> rs[k] == ReversedIndex(p, selection[k])
  {
    seq(|selection|, k requires 0 <= k < |selection| => ReversedIndex(p, selection[k]))
  }

  /**
   * What `reversePointSelection` returns: the new index of every selected
   * point, as a set; a point outside the path raises.
   */
  function ReversedSelection(p: PathValue, selection: seq<int>): Result<set<nat>, SceneError>
    requires Wf(p)
  {
    CollectSet(ReversedIndices(p, selection))
  }

  /** The reversal raises exactly when a selected point lies outside the path, and otherwise holds the new index of each selected point and nothing else. */
  lemma ReversedSelectionIs(p: PathValue, selection: seq<int>)
    requires Wf(p)
    ensures ReversedSelection(p, selection).Ok? <==> AllInPath(p, selection)
    ensures ReversedSelection(p, selection).Ok? ==>
              forall x :: x in ReversedSelection(p, selection).value <==>
                exists k :: 0 <= k < |selection| && ReversedIndex(p, selection[k]) == Ok(x)
  {
    var rs := ReversedIndices(p, selection);
    assert ReversedSelection(p, selection).Ok? <==> AllInPath(p, selection) by {
      CollectSetIs(rs);
    }
    if ReversedSelection(p, selection).Ok? {
      var v := ReversedSelection(p, selection).value;
      forall x ensures x in v <==> exists k :: 0 <= k < |selection| && ReversedIndex(p, selection[k]) == Ok(x)
      {
        assert x in v <==> Ok(x) in rs by {
          CollectSetIs(rs);
        }
        if Ok(x) in rs {
          var k :| 0 <= k < |rs| && rs[k] == Ok(x);
        }
        if exists k :: 0 <= k < |selection| && ReversedIndex(p, selection[k]) == Ok(x) {
          var k :| 0 <= k < |selection| && ReversedIndex(p, selection[k]) == Ok(x);
          assert rs[k] == Ok(x);
        }
      }
    }
  }

  lemma ReversedSelectionRaises(p: PathValue, selection: seq<int>, k: nat)
    requires Wf(p) && k < |selection| && !(0 <= selection[k] < |p.pointTypes|)
    ensures ReversedSelection(p, selection) == Err(TypeError)
  {
    ReversedSelectionIs(p, selection);
    match ReversedSelection(p, selection).error
    case TypeError =>
  }

  /** The new index of point `i` of contour `c`, in the terms the source computes it. */
  lemma ReversedIndexOf(p: PathValue, i: int, c: nat, start: nat, numPoints: nat)
    requires Wf(p) && ContourIndexOf(p, i) == Some(c)
    requires start == ContourStart(p.contourInfo, c) && numPoints == p.contourInfo[c].endPoint + 1 - start
    ensures ReversedIndex(p, i) == Ok(if p.contourInfo[c].isClosed
                                      then (if i != start then start + numPoints - (i - start) else i)
                                      else start + numPoints - 1 - (i - start))
  {
  }

  /** The loop body of `reversePointSelection`: the new index of one selected point, or `TypeError`. */
  method ReversedPointIndex(path: VarPackedPath, pointIndex: int) returns (r: Result<nat, SceneError>)
    requires path.Valid()
    ensures r == ReversedIndex(path.Value(), pointIndex)
  {
    var contourIndex := path.GetContourIndex(pointIndex);
    if contourIndex.None? {
      return Err(TypeError);
    }
    var c := contourIndex.value;
    var contourStartPoint := ContourStart(path.contourInfo.items, c);
    var numPoints := path.GetNumPointsOfContour(c).value;
    var newPointIndex := pointIndex;
    if path.contourInfo.items[c].isClosed {
      if newPointIndex != contourStartPoint {
        newPointIndex := contourStartPoint + numPoints - (newPointIndex - contourStartPoint);
      }
    } else {
      newPointIndex := contourStartPoint + numPoints - 1 - (newPointIndex - contourStartPoint);
    }
    ReversedIndexOf(path.Value(), pointIndex, c, contourStartPoint, numPoints);
    r := Ok(newPointIndex);
  }

  /** `reversePointSelection`. */
  method ReversePointSelection(path: VarPackedPath, selection: seq<int>) returns (r: Result<set<nat>, SceneError>)
    requires path.Valid()
    ensures r == ReversedSelection(path.Value(), selection)
  {
    ghost var rs := ReversedIndices(path.Value(), selection);
    var newSelection: set<nat> := {};
    var k := 0;
    while k < |selection|
      invariant k <= |selection|
      invariant CollectSet(rs[..k]) == Ok(newSelection)
    {
      assert rs[..k + 1][..k] == rs[..k];
      var newPointIndex := ReversedPointIndex(path, selection[k]);
      if newPointIndex.Err? {
        ReversedSelectionRaises(path.Value(), selection, k);
        return Err(TypeError);
      }
      newSelection := newSelection + {newPointIndex.value};
      k := k + 1;
    }
    assert rs[..k] == rs;
    r := Ok(newSelection);
  }

  //
  // getSelectedContours
  //

  /** What `getSelectedContours` returns: the contour of every selected point, once, in first-seen order (`None` for a point outside the path). */
  function SelectedContours(p: PathValue, selection: seq<int>): seq<Option<nat>>
    requires Wf(p)
  {
    Dedup(seq(|selection|, k requires 0 <= k < |selection| => ContourIndexOf(p, selection[k])))
  }

  /** The contours listed are exactly those of the selected points, each once. */
  lemma SelectedContoursAre(p: PathValue, selection: seq<int>)
    requires Wf(p)
    ensures Distinct(SelectedContours(p, selection))
    ensures forall c :: c in SelectedContours(p, selection) <==> exists k :: 0 <= k < |selection| && ContourIndexOf(p, selection[k]) == c
  {
    var all := seq(|selection|, k requires 0 <= k < |selection| => ContourIndexOf(p, selection[k]));
    DedupIs(all);
    forall c ensures c in all <==> exists k :: 0 <= k < |selection| && ContourIndexOf(p, selection[k]) == c {
      if c in all {
        var k :| 0 <= k < |all| && all[k] == c;
      }
      if exists k :: 0 <= k < |selection| && ContourIndexOf(p, selection[k]) == c {
        var k :| 0 <= k < |selection| && ContourIndexOf(p, selection[k]) == c;
        assert all[k] == c;
      }
    }
  }

  /** `getSelectedContours`. */
  method GetSelectedContours(path: VarPackedPath, selection: seq<int>) returns (cs: seq<Option<nat>>)
    requires path.Valid()
    ensures cs == SelectedContours(path.Value(), selection)
  {
    ghost var p := path.Value();
    ghost var all := seq(|selection|, k requires 0 <= k < |selection| => ContourIndexOf(p, selection[k]));
    cs := [];
    var k := 0;
    while k < |selection|
      invariant k <= |selection|
      invariant cs == Dedup(all[..k])
    {
      assert all[..k + 1][..k] == all[..k];
      var c := path.GetContourIndex(selection[k]);
      if c !in cs {
        cs := cs + [c];
      }
      k := k + 1;
    }
    assert all[..k] == all;
  }

  //
  // reverseSelectedContoursDirection
  //

  /**
   * A contour with its points in the opposite order; a closed contour then
   * moves its (new) last point to the front, so that it keeps its start
   * point. A selected contour holds at least one point, so the closed
   * empty contour, on which the source would insert `undefined`, does not
   * arise.
   */
  function ReversedContour(u: UnpackedContour): (r: UnpackedContour)
    ensures |r.points| == |u.points| && r.isClosed == u.isClosed
  {
    var rev := Reverse(u.points);
    if u.isClosed && |rev| > 0 then UnpackedContour([rev[|rev| - 1]] + rev[..|rev| - 1], true)
    else UnpackedContour(rev, u.isClosed)
  }

  /** Reversal sends point `j` to `ReversedRelative(j)` and back. */
  lemma ReversedRelativeTwice(n: nat, isClosed: bool, j: nat)
    requires j < n
    ensures ReversedRelative(n, isClosed, ReversedRelative(n, isClosed, j)) == j
  {
  }

  /** Point `k` of the reversed contour is point `ReversedRelative(k)` of the contour, as `reversePointSelection` assumes. */
  lemma ReversedContourIndices(u: UnpackedContour)
    ensures var r := ReversedContour(u);
            forall k :: 0 <= k < |u.points| ==> r.points[k] == u.points[ReversedRelative(|u.points|, u.isClosed, k)]
  {
    var n := |u.points|;
    var rev := Reverse(u.points);
    if u.isClosed && n > 0 {
      var r := [rev[n - 1]] + rev[..n - 1];
      forall k | 0 <= k < n ensures r[k] == u.points[ReversedRelative(n, true, k)] {
        if k > 0 {
          assert r[k] == rev[k - 1];
        }
      }
    }
  }

  lemma ReversedContourAt(u: UnpackedContour, j: nat)
    requires j < |u.points|
    ensures ReversedContour(u).points[ReversedRelative(|u.points|, u.isClosed, j)] == u.points[j]
  {
    ReversedContourIndices(u);
    ReversedRelativeTwice(|u.points|, u.isClosed, j);
  }

  /** Reversing a contour twice gives it back. */
  lemma ReversedContourTwice(u: UnpackedContour)
    ensures ReversedContour(ReversedContour(u)) == u
  {
    var n := |u.points|;
    var r := ReversedContour(u);
    var rr := ReversedContour(r);
    forall j | 0 <= j < n ensures rr.points[j] == u.points[j] {
      var m := ReversedRelative(n, u.isClosed, j);
      ReversedContourAt(u, j);
      ReversedContourAt(r, m);
      ReversedRelativeTwice(n, u.isClosed, j);
    }
    assert rr.points == u.points;
  }

  /** The reversed contour holds the same points, so canonical points stay canonical. */
  lemma ReversedContourCanonical(u: UnpackedContour)
    requires forall j :: 0 <= j < |u.points| ==> IsCanonicalPoint(u.points[j])
    ensures forall j :: 0 <= j < |u.points| ==> IsCanonicalPoint(ReversedContour(u).points[j])
  {
    ReversedContourIndices(u);
  }

  /** A packed contour with its direction reversed. */
  function ReversedPacked(k: PackedContour): (r: PackedContour)
    requires WfContour(k)
    ensures WfContour(r) && |r.pointTypes| == |k.pointTypes| && r.isClosed == k.isClosed
  {
    PackedOf(ReversedContour(UnpackContour(k)))
  }

  /** The contour list with every contour listed in `chosen` reversed. */
  function ReversedContours(cs: seq<PackedContour>, chosen: seq<Option<nat>>): (r: seq<PackedContour>)
    requires forall c :: 0 <= c < |cs| ==> WfContour(cs[c])
    ensures |r| == |cs|
  {
    seq(|cs|, c requires 0 <= c < |cs| => if Some(c) in chosen then ReversedPacked(cs[c]) else cs[c])
  }

  lemma ContoursWf(p: PathValue)
    requires Wf(p)
    ensures forall c :: 0 <= c < |Contours(p)| ==> WfContour(Contours(p)[c])
  {
  }

  /** Reversing the contour `all[j]` of a list of distinct contour indices, after those before it. */
  lemma ReversedContoursStep(cs: seq<PackedContour>, all: seq<Option<nat>>, j: nat)
    requires forall d :: 0 <= d < |cs| ==> WfContour(cs[d])
    requires Distinct(all) && j < |all| && all[j].Some? && all[j].value < |cs|
    ensures var c := all[j].value;
            && ReversedContours(cs, all[..j + 1]) == ReversedContours(cs, all[..j])[c := ReversedPacked(cs[c])]
            && ReversedContours(cs, all[..j])[c] == cs[c]
  {
    assert all[..j + 1] == all[..j] + [all[j]];
  }

  /** The contours listed for a selection inside the path are distinct contour indices of the path. */
  lemma SelectedContoursInPath(p: PathValue, selection: seq<int>)
    requires Wf(p) && AllInPath(p, selection)
    ensures Distinct(SelectedContours(p, selection))
    ensures forall x :: x in SelectedContours(p, selection) ==> x.Some? && x.value < |p.contourInfo|
  {
    SelectedContoursAre(p, selection);
  }

  /** The loop body of `reverseSelectedContoursDirection`: contour `c`, unpacked, reversed, packed, deleted and inserted again. */
  method ReverseContourAt(path: VarPackedPath, c: nat)
    requires path.Valid() && c < |path.contourInfo.items|
    modifies path.coordinates, path.pointTypes, path.contourInfo
    ensures path.Valid() && |path.contourInfo.items| == old(|path.contourInfo.items|)
    ensures Contours(path.Value()) == old(Contours(path.Value()))[c := ReversedPacked(old(Contours(path.Value()))[c])]
  {
    ghost var cs := Contours(path.Value());
    var u := path.GetUnpackedContour(c);
    var contour := ReversedContour(u.value);
    var packedContour := PackContour(contour);
    var _ := path.DeleteContour(c);
    var _ := path.InsertContour(c, packedContour);
    InsertAfterRemove(cs, c, packedContour);
  }

  /**
   * `reverseSelectedContoursDirection` on one layer's path: every contour
   * holding a selected point is reversed in place, and the new selection
   * is the reversed one. A selected point outside the path raises before
   * anything changes.
   */
  method ReverseSelectedContoursDirection(path: VarPackedPath, selection: seq<int>) returns (r: Result<set<nat>, SceneError>)
    requires path.Valid()
    modifies path.coordinates, path.pointTypes, path.contourInfo
    ensures path.Valid()
    ensures r == ReversedSelection(old(path.Value()), selection)
    ensures r.Err? ==> path.Value() == old(path.Value())
    ensures r.Ok? ==> Contours(path.Value()) == ReversedContours(old(Contours(path.Value())), SelectedContours(old(path.Value()), selection))
  {
    ghost var p := path.Value();
    var selectedContours := GetSelectedContours(path, selection);
    r := ReversePointSelection(path, selection);
    if r.Err? {
      return;
    }
    ReversedSelectionIs(p, selection);
    SelectedContoursInPath(p, selection);
    ghost var cs := Contours(p);
    ContoursWf(p);
    var j := 0;
    while j < |selectedContours|
      invariant j <= |selectedContours|
      invariant path.Valid() && |path.contourInfo.items| == |cs|
      invariant Contours(path.Value()) == ReversedContours(cs, selectedContours[..j])
    {
      var c := selectedContours[j].value;
      ReversedContoursStep(cs, selectedContours, j);
      ReverseContourAt(path, c);
      j := j + 1;
    }
    assert selectedContours[..j] == selectedContours;
  }

  /** Two paths whose contours have the same sizes have their contours start at the same points. */
  lemma {:induction false} SameSizesSameStarts(p: PathValue, q: PathValue, c: nat)
    requires Wf(p) && Wf(q) && |p.contourInfo| == |q.contourInfo| && c <= |p.contourInfo|
    requires forall d :: 0 <= d < |p.contourInfo| ==> |Contours(p)[d].pointTypes| == |Contours(q)[d].pointTypes|
    ensures ContourStart(p.contourInfo, c) == ContourStart(q.contourInfo, c)
  {
    if c > 0 {
      SameSizesSameStarts(p, q, c - 1);
      assert |Contours(p)[c - 1].pointTypes| == |Contours(q)[c - 1].pointTypes|;
    }
  }

  lemma UnpackedPointsCanonical(k: PackedContour)
    requires WfContour(k)
    ensures forall j :: 0 <= j < |UnpackContour(k).points| ==> IsCanonicalPoint(UnpackContour(k).points[j])
  {
  }

  /** Point `j` of a packed contour is the point at its reversed index in the reversed contour. */
  lemma ReversedPackedPoint(k: PackedContour, j: nat)
    requires WfContour(k) && j < |k.pointTypes|
    ensures ContourPoint(ReversedPacked(k), ReversedRelative(|k.pointTypes|, k.isClosed, j)) == ContourPoint(k, j)
  {
    var u := UnpackContour(k);
    var r := ReversedContour(u);
    var m := ReversedRelative(|k.pointTypes|, k.isClosed, j);
    calc {
      ContourPoint(PackedOf(r), m);
      { UnpackedPointsCanonical(k);
        ReversedContourCanonical(u);
        UnpackPackContour(r); }
      r.points[m];
      { ReversedContourAt(u, j); }
      u.points[j];
    }
  }

  /** `ContourPointIsPoint` with the contour, its start and the absolute index `i` of its point `j` named. */
  lemma PointOfContourAt(p: PathValue, c: nat, start: nat, k: PackedContour, j: nat, i: int)
    requires Wf(p) && c < |p.contourInfo| && start == ContourStart(p.contourInfo, c)
    requires k == GetContourValue(p, c) && j < |k.pointTypes| && i == start + j
    ensures GetPointValue(p, i) == Some(ContourPoint(k, j))
  {
    ContourPointIsPoint(p, c, j);
  }

  /**
   * The point at the reversed index of point `i` of contour `c` of `p` in
   * `q`, when `q` holds that contour reversed at the same start, is point
   * `i` of `p`.
   */
  lemma ReversedPointAt(p: PathValue, q: PathValue, c: nat, i: int)
    requires Wf(p) && Wf(q) && ContourIndexOf(p, i) == Some(c) && c < |q.contourInfo|
    requires ContourStart(p.contourInfo, c) == ContourStart(q.contourInfo, c)
    requires WfContour(Contours(p)[c]) && Contours(q)[c] == ReversedPacked(Contours(p)[c])
    ensures ReversedIndex(p, i).Ok? && GetPointValue(q, ReversedIndex(p, i).value) == GetPointValue(p, i)
  {
    var start := ContourStart(p.contourInfo, c);
    var kp := GetContourValue(p, c);
    var kq := GetContourValue(q, c);
    IndexInContour(p, i, c);
    ReversedIndexIn(p, i, c);
    var j := i - start;
    var m := ReversedRelative(|kp.pointTypes|, kp.isClosed, j);
    assert ContourPoint(kq, m) == ContourPoint(kp, j) by {
      ReversedPackedPoint(kp, j);
    }
    PointMoved(p, q, c, start, kp, kq, j, m, i, ReversedIndex(p, i).value);
  }

  /** A point index lies within the contour that contains it. */
  lemma IndexInContour(p: PathValue, i: int, c: nat)
    requires Wf(p) && ContourIndexOf(p, i) == Some(c)
    ensures c < |p.contourInfo|
    ensures var start := ContourStart(p.contourInfo, c);
            0 <= start <= i < start + |GetContourValue(p, c).pointTypes|
  {
    ContourBounds(p, c);
  }

  /**
   * Point `j` of contour `c` of `p` is point `m` of contour `c` of `q` when
   * the two contours start at the same index and agree on those points.
   */
  lemma PointMoved(p: PathValue, q: PathValue, c: nat, start: nat, kp: PackedContour, kq: PackedContour, j: nat, m: nat, i: int, r: int)
    requires Wf(p) && Wf(q) && c < |p.contourInfo| && c < |q.contourInfo|
    requires start == ContourStart(p.contourInfo, c) == ContourStart(q.contourInfo, c)
    requires kp == GetContourValue(p, c) && kq == GetContourValue(q, c)
    requires j < |kp.pointTypes| && m < |kq.pointTypes| && ContourPoint(kq, m) == ContourPoint(kp, j)
    requires i == start + j && r == start + m
    ensures GetPointValue(q, r) == GetPointValue(p, i)
  {
    PointOfContourAt(q, c, start, kq, m, r);
    PointOfContourAt(p, c, start, kp, j, i);
  }

  /** The contour of every selected point is listed. */
  lemma SelectedPointListed(p: PathValue, selection: seq<int>, k: nat)
    requires Wf(p) && k < |selection|
    ensures ContourIndexOf(p, selection[k]) in SelectedContours(p, selection)
  {
    SelectedContoursAre(p, selection);
  }

  /**
   * After the reversal, the point at the reversed index of a selected point
   * is that point: the new selection selects the same points.
   */
  lemma ReversedPointsAgree(p: PathValue, q: PathValue, selection: seq<int>, k: nat)
    requires Wf(p) && Wf(q) && AllInPath(p, selection) && k < |selection|
    requires Contours(q) == ReversedContours(Contours(p), SelectedContours(p, selection))
    ensures GetPointValue(q, ReversedIndex(p, selection[k]).value) == GetPointValue(p, selection[k])
  {
    var i := selection[k];
    var c := ContourIndexOf(p, i).value;
    ReversalOfContour(p, q, selection, k);
    ReversedPointAt(p, q, c, i);
  }

  /** The contour of a selected point is reversed in place. */
  lemma ReversalOfContour(p: PathValue, q: PathValue, selection: seq<int>, k: nat)
    requires Wf(p) && Wf(q) && AllInPath(p, selection) && k < |selection|
    requires Contours(q) == ReversedContours(Contours(p), SelectedContours(p, selection))
    ensures var c := ContourIndexOf(p, selection[k]).value;
            && c < |q.contourInfo|
            && ContourStart(p.contourInfo, c) == ContourStart(q.contourInfo, c)
            && WfContour(Contours(p)[c])
            && Contours(q)[c] == ReversedPacked(Contours(p)[c])
  {
    var c := ContourIndexOf(p, selection[k]).value;
    SelectedPointListed(p, selection, k);
    ContoursWf(p);
    SameSizesSameStarts(p, q, c);
  }

  lemma ReversedIndexIn(p: PathValue, i: int, c: nat)
    requires Wf(p) && ContourIndexOf(p, i) == Some(c)
    ensures var start := ContourStart(p.contourInfo, c);
            var k := GetContourValue(p, c);
            ReversedIndex(p, i) == Ok(ReversedWithin(start, |k.pointTypes|, k.isClosed, i))
  {
  }

  //
  // setStartPoint
  //

  /** An entry of `contourToPointMap`: a contour and the contour-relative index of its first selected point. */
  datatype StartChoice = StartChoice(contour: nat, offset: nat)

  /** `contourToPointMap.get(c)`: the offset recorded for contour `c`, if any. */
  function ChosenOffset(choices: seq<StartChoice>, c: nat): (r: Option<nat>)
    ensures r.Some? ==> StartChoice(c, r.value) in choices
    ensures r.None? ==> forall j :: 0 <= j < |choices| ==> choices[j].contour != c
  {
    if |choices| == 0 then None
    else if choices[0].contour == c then Some(choices[0].offset)
    else ChosenOffset(choices[1..], c)
  }

  /** Recording one more entry changes only the lookup of a contour not yet recorded. */
  lemma {:induction false} ChosenOffsetSnoc(choices: seq<StartChoice>, x: StartChoice, c: nat)
    ensures ChosenOffset(choices + [x], c) ==
              if ChosenOffset(choices, c).Some? then ChosenOffset(choices, c)
              else if x.contour == c then Some(x.offset)
              else None
  {
    if |choices| > 0 {
      assert (choices + [x])[1..] == choices[1..] + [x];
      ChosenOffsetSnoc(choices[1..], x, c);
    }
  }

  /** Looking a contour up after an entry is recorded unless its contour is recorded already. */
  lemma {:induction false} ChosenOffsetRecorded(choices: seq<StartChoice>, x: StartChoice, v: seq<StartChoice>, c: nat)
    requires v == if ChosenOffset(choices, x.contour).Some? then choices else choices + [x]
    ensures ChosenOffset(v, c) ==
              if ChosenOffset(choices, c).Some? then ChosenOffset(choices, c)
              else if x.contour == c then Some(x.offset)
              else None
  {
    ChosenOffsetSnoc(choices, x, c);
  }

  /** Each entry names a contour of `cs` and a point of that contour. */
  predicate ChoicesFit(cs: seq<PackedContour>, choices: seq<StartChoice>) {
    forall x :: x in choices ==> x.contour < |cs| && x.offset < |cs[x.contour].pointTypes|
  }

  /** No contour is recorded twice. */
  predicate ChoicesDistinct(choices: seq<StartChoice>) {
    forall i, j :: 0 <= i < j < |choices| ==> choices[i].contour != choices[j].contour
  }

  /**
   * One step of the first loop of `setStartPoint` for a point `i` of the
   * path: its contour is recorded, with `i`'s index within it, unless it
   * is recorded already. (A point outside the path raises instead; see
   * `StartPointSelection`.)
   */
  function RecordChoice(p: PathValue, choices: seq<StartChoice>, i: int): (r: seq<StartChoice>)
    requires Wf(p)
    ensures ChoicesFit(Contours(p), choices) && ChoicesDistinct(choices) ==>
              ChoicesFit(Contours(p), r) && ChoicesDistinct(r)
  {
    if ContourIndexOf(p, i).None? then choices
    else
    var c := ContourIndexOf(p, i).value;
    IndexInContour(p, i, c);
    if ChosenOffset(choices, c).Some? then choices
    else
      var r := choices + [StartChoice(c, i - StartOf(p, c))];
      assert ChoicesDistinct(choices) ==> ChoicesDistinct(r) by {
        forall j | 0 <= j < |choices| ensures choices[j].contour != c {
        }
      }
      r
  }

  /**
   * The entries the first loop of `setStartPoint` records for a selection
   * inside the path: for every contour holding a selected point, the
   * contour-relative index of its first selected point, in first-seen
   * order.
   */
  function StartPointChoices(p: PathValue, selection: seq<int>): seq<StartChoice>
    requires Wf(p)
    decreases |selection|
  {
    if |selection| == 0 then []
    else RecordChoice(p, StartPointChoices(p, selection[..|selection| - 1]), selection[|selection| - 1])
  }

  /** Every recorded entry names a point of the path, and no contour is recorded twice. */
  lemma {:induction false} StartPointChoicesFit(p: PathValue, selection: seq<int>)
    requires Wf(p)
    ensures ChoicesFit(Contours(p), StartPointChoices(p, selection))
    ensures ChoicesDistinct(StartPointChoices(p, selection))
    decreases |selection|
  {
    if |selection| > 0 {
      StartPointChoicesFit(p, selection[..|selection| - 1]);
    }
  }

  /** One more selected point `i`, of contour `d`, records `d` if it is not recorded yet. */
  lemma {:induction false} StartPointChoicesLast(p: PathValue, selection: seq<int>, init: seq<int>, i: int, d: nat)
    requires Wf(p) && |selection| > 0
    requires init == selection[..|selection| - 1] && i == selection[|selection| - 1]
    requires ContourIndexOf(p, i) == Some(d)
    ensures d < |p.contourInfo| && StartOf(p, d) <= i
    ensures var choices := StartPointChoices(p, init);
            StartPointChoices(p, selection) ==
              if ChosenOffset(choices, d).Some? then choices else choices + [StartChoice(d, i - StartOf(p, d))]
  {
    IndexInContour(p, i, d);
    assert StartPointChoices(p, selection) == RecordChoice(p, StartPointChoices(p, init), i);
  }

  /** A contour none of whose points is selected is not recorded. */
  lemma {:induction false} StartPointChoicesNone(p: PathValue, selection: seq<int>, c: nat)
    requires Wf(p)
    requires forall m :: 0 <= m < |selection| ==> ContourIndexOf(p, selection[m]) != Some(c)
    ensures ChosenOffset(StartPointChoices(p, selection), c) == None
    decreases |selection|
  {
    if |selection| > 0 {
      var init := selection[..|selection| - 1];
      var i := selection[|selection| - 1];
      assert forall k :: 0 <= k < |init| ==> init[k] == selection[k];
      StartPointChoicesNone(p, init, c);
      if ContourIndexOf(p, i).Some? {
        var d := ContourIndexOf(p, i).value;
        StartPointChoicesLast(p, selection, init, i, d);
        ChosenOffsetRecorded(StartPointChoices(p, init), StartChoice(d, i - StartOf(p, d)), StartPointChoices(p, selection), c);
      }
    }
  }

  /** The offset recorded for contour `c` is that of its first selected point `i`, at position `m` of the selection. */
  lemma {:induction false} StartPointChoicesFirst(p: PathValue, selection: seq<int>, m: nat, i: int, c: nat)
    requires Wf(p) && m < |selection| && i == selection[m]
    requires ContourIndexOf(p, i) == Some(c)
    requires forall m' :: 0 <= m' < m ==> ContourIndexOf(p, selection[m']) != Some(c)
    ensures c < |p.contourInfo| && StartOf(p, c) <= i
    ensures ChosenOffset(StartPointChoices(p, selection), c) == Some(i - StartOf(p, c))
    decreases |selection|
  {
    IndexInContour(p, i, c);
    var init := selection[..|selection| - 1];
    if m == |selection| - 1 {
      assert ChosenOffset(StartPointChoices(p, init), c) == None by {
        assert forall k :: 0 <= k < |init| ==> init[k] == selection[k];
        StartPointChoicesNone(p, init, c);
      }
      StartPointChoicesFirstLast(p, selection, init, i, c);
    } else {
      assert forall k :: 0 <= k < |init| ==> init[k] == selection[k];
      var last := selection[|selection| - 1];
      StartPointChoicesFirst(p, init, m, i, c);
      if ContourIndexOf(p, last).Some? {
        var d := ContourIndexOf(p, last).value;
        StartPointChoicesLast(p, selection, init, last, d);
        ChosenOffsetRecorded(StartPointChoices(p, init), StartChoice(d, last - StartOf(p, d)), StartPointChoices(p, selection), c);
      }
    }
  }

  /** `StartPointChoicesFirst` when the first selected point of contour `c` is the last selected point. */
  lemma {:induction false} StartPointChoicesFirstLast(p: PathValue, selection: seq<int>, init: seq<int>, i: int, c: nat)
    requires Wf(p) && |selection| > 0
    requires init == selection[..|selection| - 1] && i == selection[|selection| - 1]
    requires ContourIndexOf(p, i) == Some(c)
    requires ChosenOffset(StartPointChoices(p, init), c) == None
    ensures c < |p.contourInfo| && StartOf(p, c) <= i
    ensures ChosenOffset(StartPointChoices(p, selection), c) == Some(i - StartOf(p, c))
  {
    StartPointChoicesLast(p, selection, init, i, c);
    var choices := StartPointChoices(p, init);
    var x := StartChoice(c, i - StartOf(p, c));
    ChosenOffsetRecorded(choices, x, choices + [x], c);
  }

  /** A contour with its first `k` points moved to its end (`splice(0, k)`, then `push`). */
  function RotatedContour(u: UnpackedContour, k: nat): (r: UnpackedContour)
    requires k <= |u.points|
    ensures |r.points| == |u.points| && r.isClosed == u.isClosed
  {
    UnpackedContour(u.points[k..] + u.points[..k], u.isClosed)
  }

  /** Point `j` of the rotated contour is point `j + k` of the contour, counted round its end. */
  lemma {:induction false} RotatedContourAt(u: UnpackedContour, k: nat, j: nat)
    requires k <= |u.points| && j < |u.points|
    ensures var n := |u.points|;
            RotatedContour(u, k).points[j] == u.points[if j + k < n then j + k else j + k - n]
  {
  }

  /** Rotating by `k` and then by the remaining `n - k` points gives the contour back. */
  lemma {:induction false} RotatedContourInverse(u: UnpackedContour, k: nat)
    requires k <= |u.points|
    ensures RotatedContour(RotatedContour(u, k), |u.points| - k) == u
  {
    var n := |u.points|;
    var r := RotatedContour(u, k).points;
    assert r[n - k..] == u.points[..k];
    assert r[..n - k] == u.points[k..];
    assert u.points[..k] + u.points[k..] == u.points;
  }

  /** A packed contour rotated to start at its point `k`. */
  function RotatedPacked(kc: PackedContour, k: nat): (r: PackedContour)
    requires WfContour(kc) && k < |kc.pointTypes|
    ensures WfContour(r) && |r.pointTypes| == |kc.pointTypes| && r.isClosed == kc.isClosed
  {
    PackedOf(RotatedContour(UnpackContour(kc), k))
  }

  /** The rotated contour starts at point `k` of the contour. */
  lemma {:induction false} RotatedPackedStart(kc: PackedContour, k: nat)
    requires WfContour(kc) && k < |kc.pointTypes|
    ensures ContourPoint(RotatedPacked(kc, k), 0) == ContourPoint(kc, k)
  {
    var u := UnpackContour(kc);
    var r := RotatedContour(u, k);
    calc {
      ContourPoint(PackedOf(r), 0);
      { UnpackedPointsCanonical(kc);
        assert forall j :: 0 <= j < |r.points| ==> r.points[j] in u.points;
        UnpackPackContour(r); }
      r.points[0];
      { RotatedContourAt(u, k, 0); }
      u.points[k];
    }
  }

  /** Whether `setStartPoint` rotates the contour of an entry: a closed contour whose first selected point is not its start. */
  predicate Rotates(cs: seq<PackedContour>, x: StartChoice)
    requires x.contour < |cs|
  {
    x.offset != 0 && cs[x.contour].isClosed
  }

  /** The contour list after the second loop of `setStartPoint`: each closed contour recorded with a non-zero offset rotated to start there. */
  function RotatedContours(cs: seq<PackedContour>, choices: seq<StartChoice>): (r: seq<PackedContour>)
    requires forall c :: 0 <= c < |cs| ==> WfContour(cs[c])
    requires ChoicesFit(cs, choices)
    ensures |r| == |cs|
    ensures forall c :: 0 <= c < |cs| ==> |r[c].pointTypes| == |cs[c].pointTypes| && r[c].isClosed == cs[c].isClosed
  {
    seq(|cs|, c requires 0 <= c < |cs| =>
      match ChosenOffset(choices, c)
      case None => cs[c]
      case Some(k) => if Rotates(cs, StartChoice(c, k)) then RotatedPacked(cs[c], k) else cs[c])
  }

  /** The contour list after entry `x` is processed: the contour of `x` rotated if `x` rotates it. */
  function RotationStep(cur: seq<PackedContour>, cs: seq<PackedContour>, x: StartChoice): seq<PackedContour>
    requires |cur| == |cs| && x.contour < |cs| && WfContour(cs[x.contour]) && x.offset < |cs[x.contour].pointTypes|
  {
    if Rotates(cs, x) then cur[x.contour := RotatedPacked(cs[x.contour], x.offset)] else cur
  }

  /** With nothing recorded, no contour is rotated. */
  lemma RotatedContoursNone(cs: seq<PackedContour>)
    requires forall c :: 0 <= c < |cs| ==> WfContour(cs[c])
    ensures RotatedContours(cs, []) == cs
  {
  }

  /** Processing entry `j` of distinct entries, after those before it. */
  lemma {:induction false} RotatedContoursStep(cs: seq<PackedContour>, choices: seq<StartChoice>, j: nat)
    requires forall d :: 0 <= d < |cs| ==> WfContour(cs[d])
    requires ChoicesFit(cs, choices) && ChoicesDistinct(choices) && j < |choices|
    ensures ChoicesFit(cs, choices[..j]) && ChoicesFit(cs, choices[..j + 1])
    ensures var x := choices[j];
            && RotatedContours(cs, choices[..j])[x.contour] == cs[x.contour]
            && RotatedContours(cs, choices[..j + 1]) == RotationStep(RotatedContours(cs, choices[..j]), cs, x)
  {
    var x := choices[j];
    assert choices[..j + 1] == choices[..j] + [x];
    assert forall y :: y in choices[..j + 1] ==> y in choices;
    assert ChosenOffset(choices[..j], x.contour) == None by {
      forall i | 0 <= i < j ensures choices[..j][i].contour != x.contour {
      }
    }
    var before := RotatedContours(cs, choices[..j]);
    var after := RotatedContours(cs, choices[..j + 1]);
    var step := RotationStep(before, cs, x);
    forall c | 0 <= c < |cs| ensures after[c] == step[c] {
      ChosenOffsetSnoc(choices[..j], x, c);
    }
  }

  /** The start points of the contours the second loop selects: those recorded at offset 0, and the closed ones. */
  function NewStarts(p: PathValue, choices: seq<StartChoice>): set<nat>
    requires Wf(p) && ChoicesFit(Contours(p), choices)
  {
    set x | x in choices && (x.offset == 0 || p.contourInfo[x.contour].isClosed) :: StartOf(p, x.contour)
  }

  lemma {:induction false} NewStartsStep(p: PathValue, choices: seq<StartChoice>, j: nat)
    requires Wf(p) && ChoicesFit(Contours(p), choices) && j < |choices|
    ensures ChoicesFit(Contours(p), choices[..j]) && ChoicesFit(Contours(p), choices[..j + 1])
    ensures var x := choices[j];
            NewStarts(p, choices[..j + 1]) ==
              NewStarts(p, choices[..j]) + (if x.offset == 0 || p.contourInfo[x.contour].isClosed then {StartOf(p, x.contour)} else {})
  {
    assert choices[..j + 1] == choices[..j] + [choices[j]];
    assert forall y :: y in choices[..j + 1] ==> y in choices;
  }

  /** `setStartPoint`'s new selection, or the `TypeError` a selected point outside the path raises. */
  function StartPointSelection(p: PathValue, selection: seq<int>): (r: Result<set<nat>, SceneError>)
    requires Wf(p)
    ensures r.Ok? <==> AllInPath(p, selection)
  {
    if !AllInPath(p, selection) then Err(TypeError)
    else
      StartPointChoicesFit(p, selection);
      Ok(NewStarts(p, StartPointChoices(p, selection)))
  }

  /** `setStartPoint`'s new contour list, or `TypeError`. */
  function StartPointContours(p: PathValue, selection: seq<int>): (r: Result<seq<PackedContour>, SceneError>)
    requires Wf(p)
    ensures r.Ok? <==> AllInPath(p, selection)
  {
    if !AllInPath(p, selection) then Err(TypeError)
    else
      StartPointChoicesFit(p, selection);
      ContoursWf(p);
      Ok(RotatedContours(Contours(p), StartPointChoices(p, selection)))
  }

  /** The loop body of the first loop: record the first selected point of a contour not seen yet. */
  method RecordStartChoice(path: VarPackedPath, choices: seq<StartChoice>, pointIndex: int) returns (r: Result<seq<StartChoice>, SceneError>)
    requires path.Valid()
    ensures var p := path.Value();
            r == if 0 <= pointIndex < |p.pointTypes| then Ok(RecordChoice(p, choices, pointIndex)) else Err(TypeError)
  {
    var contourIndex := path.GetContourIndex(pointIndex);
    if contourIndex.None? {
      return Err(TypeError);
    }
    var c := contourIndex.value;
    IndexInContour(path.Value(), pointIndex, c);
    var contourStartPoint := ContourStart(path.contourInfo.items, c);
    if ChosenOffset(choices, c).Some? {
      return Ok(choices);
    }
    r := Ok(choices + [StartChoice(c, pointIndex - contourStartPoint)]);
  }

  /** The loop body of the second loop for a rotated contour: `k` points spliced off its front and pushed onto its end. */
  method RotateContourAt(path: VarPackedPath, c: nat, k: nat)
    requires path.Valid() && c < |path.contourInfo.items| && k < |Contours(path.Value())[c].pointTypes|
    modifies path.coordinates, path.pointTypes, path.contourInfo
    ensures path.Valid() && |path.contourInfo.items| == old(|path.contourInfo.items|)
    ensures Contours(path.Value()) == old(Contours(path.Value()))[c := RotatedPacked(old(Contours(path.Value()))[c], k)]
  {
    ghost var cs := Contours(path.Value());
    var u := path.GetUnpackedContour(c);
    var contour := RotatedContour(u.value, k);
    var packedContour := PackContour(contour);
    var _ := path.DeleteContour(c);
    var _ := path.InsertContour(c, packedContour);
    InsertAfterRemove(cs, c, packedContour);
  }

  /** The first loop of `setStartPoint`, which reads the path and changes nothing. */
  method StartChoices(path: VarPackedPath, selection: seq<int>) returns (r: Result<seq<StartChoice>, SceneError>)
    requires path.Valid()
    ensures r.Ok? <==> AllInPath(path.Value(), selection)
    ensures r.Ok? ==> r.value == StartPointChoices(path.Value(), selection)
    ensures r.Err? ==> r == Err(TypeError)
  {
    ghost var p := path.Value();
    var choices: seq<StartChoice> := [];
    var k := 0;
    while k < |selection|
      invariant k <= |selection| && AllInPath(p, selection[..k])
      invariant choices == StartPointChoices(p, selection[..k])
    {
      AllInPathPrefix(p, selection, k);
      var next := RecordStartChoice(path, choices, selection[k]);
      if next.Err? {
        return Err(TypeError);
      }
      assert selection[..k + 1][..k] == selection[..k];
      choices := next.value;
      k := k + 1;
    }
    assert selection[..k] == selection;
    r := Ok(choices);
  }

  /**
   * The body of the second loop of `setStartPoint` for entry `x`: a
   * closed contour recorded at a non-zero offset is rotated; the start
   * point is selected unless the contour is open and was recorded at a
   * non-zero offset.
   */
  method ApplyStartChoice(path: VarPackedPath, ghost p: PathValue, x: StartChoice) returns (added: set<nat>)
    requires path.Valid() && Wf(p) && x.contour < |p.contourInfo| && x.offset < |Contours(p)[x.contour].pointTypes|
    requires |path.contourInfo.items| == |p.contourInfo|
    requires forall d :: 0 <= d < |p.contourInfo| ==>
               |Contours(path.Value())[d].pointTypes| == |Contours(p)[d].pointTypes|
    requires Contours(path.Value())[x.contour] == Contours(p)[x.contour]
    modifies path.coordinates, path.pointTypes, path.contourInfo
    ensures path.Valid() && |path.contourInfo.items| == |p.contourInfo|
    ensures Contours(path.Value()) == RotationStep(old(Contours(path.Value())), Contours(p), x)
    ensures added == if x.offset == 0 || p.contourInfo[x.contour].isClosed then {StartOf(p, x.contour)} else {}
  {
    SameSizesSameStarts(p, path.Value(), x.contour);
    assert path.contourInfo.items[x.contour].isClosed == Contours(p)[x.contour].isClosed == p.contourInfo[x.contour].isClosed;
    if x.offset == 0 {
      added := {ContourStart(path.contourInfo.items, x.contour)};
    } else if path.contourInfo.items[x.contour].isClosed {
      RotateContourAt(path, x.contour, x.offset);
      SameSizesSameStarts(p, path.Value(), x.contour);
      added := {ContourStart(path.contourInfo.items, x.contour)};
    } else {
      added := {};
    }
  }

  /** `ApplyStartChoice` for entry `j`, stated as the step of the second loop's invariant. */
  method ApplyStartChoiceAt(path: VarPackedPath, ghost p: PathValue, choices: seq<StartChoice>, j: nat, selected: set<nat>) returns (next: set<nat>)
    requires Wf(p) && ChoicesFit(Contours(p), choices) && ChoicesDistinct(choices) && j < |choices|
    requires path.Valid() && |path.contourInfo.items| == |p.contourInfo|
    requires ChoicesFit(Contours(p), choices[..j])
    requires Contours(path.Value()) == RotatedContours(Contours(p), choices[..j])
    requires selected == NewStarts(p, choices[..j])
    modifies path.coordinates, path.pointTypes, path.contourInfo
    ensures path.Valid() && |path.contourInfo.items| == |p.contourInfo|
    ensures ChoicesFit(Contours(p), choices[..j + 1])
    ensures Contours(path.Value()) == RotatedContours(Contours(p), choices[..j + 1])
    ensures next == NewStarts(p, choices[..j + 1])
  {
    ContoursWf(p);
    RotatedContoursStep(Contours(p), choices, j);
    NewStartsStep(p, choices, j);
    var added := ApplyStartChoice(path, p, choices[j]);
    next := selected + added;
  }

  /** The second loop of `setStartPoint`: the recorded contours rotated, and their start points collected. */
  method ApplyStartChoices(path: VarPackedPath, choices: seq<StartChoice>) returns (newSelection: set<nat>)
    requires path.Valid() && ChoicesFit(Contours(path.Value()), choices) && ChoicesDistinct(choices)
    modifies path.coordinates, path.pointTypes, path.contourInfo
    ensures path.Valid()
    ensures newSelection == NewStarts(old(path.Value()), choices)
    ensures Contours(path.Value()) == RotatedContours(old(Contours(path.Value())), choices)
  {
    ghost var p := path.Value();
    ContoursWf(p);
    newSelection := {};
    var j := 0;
    assert choices[..j] == [];
    RotatedContoursNone(Contours(p));
    while j < |choices|
      invariant j <= |choices|
      invariant path.Valid() && |path.contourInfo.items| == |p.contourInfo|
      invariant ChoicesFit(Contours(p), choices[..j])
      invariant Contours(path.Value()) == RotatedContours(Contours(p), choices[..j])
      invariant newSelection == NewStarts(p, choices[..j])
    {
      newSelection := ApplyStartChoiceAt(path, p, choices, j, newSelection);
      j := j + 1;
    }
    assert choices[..j] == choices;
  }

  /**
   * `setStartPoint` on one layer's path: every closed contour whose first
   * selected point is not its start point is rotated to start there, and
   * the new selection is the start point of every closed contour with a
   * selected point and of every open one whose first selected point is
   * its start. A selected point outside the path raises before anything
   * changes.
   */
  method SetStartPoint(path: VarPackedPath, selection: seq<int>) returns (r: Result<set<nat>, SceneError>)
    requires path.Valid()
    modifies path.coordinates, path.pointTypes, path.contourInfo
    ensures path.Valid()
    ensures r == StartPointSelection(old(path.Value()), selection)
    ensures r.Err? ==> path.Value() == old(path.Value())
    ensures r.Ok? ==> StartPointContours(old(path.Value()), selection) == Ok(Contours(path.Value()))
  {
    var choices := StartChoices(path, selection);
    if choices.Err? {
      return Err(choices.error);
    }
    StartPointChoicesFit(path.Value(), selection);
    var newSelection := ApplyStartChoices(path, choices.value);
    r := Ok(newSelection);
  }

  /**
   * After `setStartPoint`, the start point of each rotated contour holds
   * the point that was the first selected point of that contour.
   */
  lemma {:induction false} NewStartHoldsSelected(p: PathValue, q: PathValue, selection: seq<int>, m: nat)
    requires Wf(p) && Wf(q) && AllInPath(p, selection) && m < |selection|
    requires StartPointContours(p, selection) == Ok(Contours(q))
    requires forall m' :: 0 <= m' < m ==> ContourIndexOf(p, selection[m']) != ContourIndexOf(p, selection[m])
    ensures var c := ContourIndexOf(p, selection[m]).value;
            p.contourInfo[c].isClosed ==> GetPointValue(q, StartOf(p, c)) == GetPointValue(p, selection[m])
  {
    var i := selection[m];
    var c := ContourIndexOf(p, i).value;
    var choices := StartPointChoices(p, selection);
    StartPointChoicesFit(p, selection);
    ContoursWf(p);
    assert Contours(q) == RotatedContours(Contours(p), choices);
    StartPointChoicesFirst(p, selection, m, i, c);
    if p.contourInfo[c].isClosed {
      RotatedStartHolds(p, q, choices, c, i - StartOf(p, c), i);
    }
  }

  /** The start point of a closed contour rotated to offset `o` holds the point that was at `o`. */
  lemma {:induction false} RotatedStartHolds(p: PathValue, q: PathValue, choices: seq<StartChoice>, c: nat, o: nat, i: int)
    requires Wf(p) && Wf(q) && c < |p.contourInfo| && p.contourInfo[c].isClosed
    requires ChoicesFit(Contours(p), choices) && ChosenOffset(choices, c) == Some(o)
    requires i == StartOf(p, c) + o
    requires Contours(q) == RotatedContours(Contours(p), choices)
    ensures GetPointValue(q, StartOf(p, c)) == GetPointValue(p, i)
  {
    var start := StartOf(p, c);
    SameSizesSameStarts(p, q, c);
    var kp := GetContourValue(p, c);
    var kq := GetContourValue(q, c);
    assert StartChoice(c, o) in choices;
    assert kq == Contours(q)[c];
    if o == 0 {
      assert kq == kp;
    } else {
      assert kq == RotatedPacked(kp, o);
      RotatedPackedStart(kp, o);
    }
    PointMoved(p, q, c, start, kp, kq, o, 0, i, start);
  }

  //
  // Arrow-key nudges
  //

  /** How much an arrow key's unit delta is scaled: 100 with shift and meta or control, 10 with shift alone, 1 otherwise. */
  function ArrowScale(shift: bool, meta: bool, ctrl: bool): (f: int)
    ensures f == 100 <==> shift && (meta || ctrl)
    ensures f == 10 <==> shift && !meta && !ctrl
    ensures f == 1 <==> !shift
  {
    if shift && (meta || ctrl) then 100
    else if shift then 10
    else 1
  }

  /**
   * `handleArrowKeys`: the delta the selection is moved by, given the
   * key's unit delta; nothing when no glyph is being edited or nothing is
   * selected.
   */
  function ArrowNudge(isEditing: bool, selectionSize: nat, unit: (int, int), shift: bool, meta: bool, ctrl: bool): (r: Option<(int, int)>)
    ensures r.None? <==> !isEditing || selectionSize == 0
  {
    if !isEditing || selectionSize == 0 then None
    else
      var f := ArrowScale(shift, meta, ctrl);
      Some((unit.0 * f, unit.1 * f))
  }

  /** A nudge moves by the unit delta, ten times it or a hundred times it, in the unit's direction. */
  lemma ArrowNudgeScales(isEditing: bool, selectionSize: nat, unit: (int, int), shift: bool, meta: bool, ctrl: bool)
    requires isEditing && selectionSize > 0
    ensures var d := ArrowNudge(isEditing, selectionSize, unit, shift, meta, ctrl).value;
            exists f :: f in {1, 10, 100} && d == (unit.0 * f, unit.1 * f)
    ensures !shift ==> ArrowNudge(isEditing, selectionSize, unit, shift, meta, ctrl) == Some(unit)
  {
    var f := ArrowScale(shift, meta, ctrl);
    var d := ArrowNudge(isEditing, selectionSize, unit, shift, meta, ctrl).value;
    assert f in {1, 10, 100} && d == (unit.0 * f, unit.1 * f);
  }

  //
  // PathConnectDetector
  //

  /** An item of the scene selection, `type/index` (as `point/3` or `component/0`). */
  datatype SelectionItem = SelectionItem(kind: string, index: int)

  /** Whether `isStartOrEndPoint` is non-zero at `i`: the first or the last point of an open contour. */
  lemma StartOrEndMeans(p: PathValue, i: int)
    requires Wf(p) && 0 <= i < |p.pointTypes|
    ensures var c := ContourIndexOf(p, i).value;
            StartOrEndValue(p, i).value != 0 <==>
              !p.contourInfo[c].isClosed && (i == StartOf(p, c) || i == p.contourInfo[c].endPoint)
  {
  }

  /**
   * The source point of a `PathConnectDetector`: set only when the
   * selection is a single point that is the first or last point of an open
   * contour. `isStartOrEndPoint` raises for a point outside the path.
   */
  ghost function ConnectSource(p: PathValue, selection: set<SelectionItem>): (r: Result<Option<nat>, PathError>)
    requires Wf(p)
    ensures r.Err? ==> exists i :: SelectionItem("point", i) in selection && !(0 <= i < |p.pointTypes|)
    ensures r.Ok? && r.value.Some? ==>
              && selection == {SelectionItem("point", r.value.value)}
              && r.value.value < |p.pointTypes|
              && StartOrEndValue(p, r.value.value).value != 0
  {
    if |selection| != 1 then Ok(None)
    else
      var item :| item in selection;
      if item.kind != "point" then Ok(None)
      else
        match StartOrEndValue(p, item.index)
        case Err(e) => Err(e)
        case Ok(v) =>
          if v == 0 then Ok(None)
          else
            assert selection == {item} by { SingletonSet(selection, item); }
            Ok(Some(item.index))
  }

  /** A set of one element is that element's singleton. */
  lemma {:induction false} SingletonSet<T>(s: set<T>, x: T)
    requires |s| == 1 && x in s
    ensures s == {x}
  {
    assert |s - {x}| == 0;
    assert s - {x} == {};
  }

  /** A single selected start or end point of an open contour is the source. */
  lemma ConnectSourceOfEnd(p: PathValue, i: nat)
    requires Wf(p) && i < |p.pointTypes| && StartOrEndValue(p, i).value != 0
    ensures ConnectSource(p, {SelectionItem("point", i)}) == Ok(Some(i))
  {
  }

  /**
   * The decision of `shouldConnect` once the target point is known:
   * connect when the target is a different point that is itself the
   * first or last point of an open contour.
   */
  function ShouldConnectValue(p: PathValue, source: Option<nat>, target: Option<int>): (r: Result<bool, PathError>)
    requires Wf(p)
    ensures r == Ok(true) <==>
              && source.Some? && target.Some? && target.value != source.value
              && 0 <= target.value < |p.pointTypes| && StartOrEndValue(p, target.value).value != 0
    ensures r.Err? <==> source.Some? && target.Some? && target.value != source.value && !(0 <= target.value < |p.pointTypes|)
  {
    if source.None? then Ok(false)
    else if target.None? || target.value == source.value then Ok(false)
    else
      match StartOrEndValue(p, target.value)
      case Err(e) => Err(e)
      case Ok(v) => Ok(v != 0)
  }

  /**
   * `shouldConnect` as written: with a source point set it looks the
   * target up with `this.path.pointIndexNearPoint`, a method
   * `VarPackedPath` does not define, so every call with a source raises.
   */
  function ShouldConnectAsWritten(source: Option<nat>): (r: Result<bool, PathError>)
    ensures r == Ok(false) <==> source.None?
    ensures r.Err? <==> source.Some?
    ensures r.Err? ==> r.error == NotAFunction("pointIndexNearPoint")
  {
    if source.None? then Ok(false) else Err(NotAFunction("pointIndexNearPoint"))
  }

  /**
   * `t` is what `firstPointIndexNearPoint` answers for the test `near`
   * skipping point `skip`: the first other point `near` accepts, or none.
   */
  predicate IsFirstNear(p: PathValue, near: (real, real) -> bool, skip: nat, t: Option<int>)
    requires |p.coordinates| == 2 * |p.pointTypes|
  {
    match t
    case Some(j) =>
      && 0 <= j < |p.pointTypes| && j != skip && near(X(p.coordinates, j), Y(p.coordinates, j))
      && forall i :: 0 <= i < j && near(X(p.coordinates, i), Y(p.coordinates, i)) ==> i == skip
    case None =>
      forall i :: 0 <= i < |p.pointTypes| && near(X(p.coordinates, i), Y(p.coordinates, i)) ==> i == skip
  }

  /** The decision state of a `PathConnectDetector` over one path. */
  class PathConnectDetector {
    const path: VarPackedPath
    var connectSourcePointIndex: Option<nat>
    var connectTargetPointIndex: Option<int>

    /** The detector once `ConnectSource` succeeded. */
    constructor (path: VarPackedPath, source: Option<nat>)
      ensures this.path == path && connectSourcePointIndex == source && connectTargetPointIndex == None
    {
      this.path := path;
      connectSourcePointIndex := source;
      connectTargetPointIndex := None;
    }

    /**
     * `shouldConnect` with the target looked up as evidently intended,
     * by `firstPointIndexNearPoint` around the source point, skipping the
     * source itself; the target found is recorded. `around` stands for
     * `centeredRect` with the click margin: the test of the square around
     * a point. A source that is no longer in the path raises when its
     * position is read.
     */
    method ShouldConnect(around: (real, real) -> ((real, real) -> bool)) returns (r: Result<bool, PathError>)
      requires path.Valid()
      modifies this
      ensures connectSourcePointIndex == old(connectSourcePointIndex)
      ensures connectSourcePointIndex.None? ==> r == Ok(false) && connectTargetPointIndex == old(connectTargetPointIndex)
      ensures connectSourcePointIndex.Some? && connectSourcePointIndex.value >= |path.pointTypes.items| ==>
                r == Err(NoSuchPoint(connectSourcePointIndex.value)) && connectTargetPointIndex == old(connectTargetPointIndex)
      ensures connectSourcePointIndex.Some? && connectSourcePointIndex.value < |path.pointTypes.items| ==>
                var s := connectSourcePointIndex.value;
                var p := path.Value();
                && IsFirstNear(p, around(X(p.coordinates, s), Y(p.coordinates, s)), s, connectTargetPointIndex)
                && r == ShouldConnectValue(p, connectSourcePointIndex, connectTargetPointIndex)
                && r.Ok?
    {
      if connectSourcePointIndex.None? {
        return Ok(false);
      }
      var s := connectSourcePointIndex.value;
      if s >= |path.pointTypes.items| {
        return Err(NoSuchPoint(s));
      }
      var found := path.FirstPointIndexNearPoint(around(X(path.coordinates.items, s), Y(path.coordinates.items, s)), Some(s));
      var target: Option<int> := if found.Some? then Some(found.value) else None;
      var shouldConnect := false;
      if target.Some? && target.value != s {
        var v := path.IsStartOrEndPoint(target.value);
        shouldConnect := v.value != 0;
      }
      connectTargetPointIndex := target;
      r := Ok(shouldConnect);
    }
  }

  /** The `PathConnectDetector` constructor: the detector, or the error `isStartOrEndPoint` raises. */
  method NewPathConnectDetector(path: VarPackedPath, selection: set<SelectionItem>) returns (r: Result<PathConnectDetector, PathError>)
    requires path.Valid()
    ensures r.Ok? <==> ConnectSource(path.Value(), selection).Ok?
    ensures r.Ok? ==> fresh(r.value) && r.value.path == path
                      && r.value.connectSourcePointIndex == ConnectSource(path.Value(), selection).value
  {
    var source := ConnectSourceOf(path, selection);
    if source.Err? {
      return Err(source.error);
    }
    var detector := new PathConnectDetector(path, source.value);
    r := Ok(detector);
  }

  /** The constructor's test on the selection, reading the path. */
  method ConnectSourceOf(path: VarPackedPath, selection: set<SelectionItem>) returns (r: Result<Option<nat>, PathError>)
    requires path.Valid()
    ensures r == ConnectSource(path.Value(), selection)
  {
    if |selection| != 1 {
      return Ok(None);
    }
    var item :| item in selection;
    assert selection == {item} by { SingletonSet(selection, item); }
    if item.kind != "point" {
      return Ok(None);
    }
    var v := path.IsStartOrEndPoint(item.index);
    if v.Err? {
      return Err(v.error);
    }
    if v.value == 0 {
      return Ok(None);
    }
    r := Ok(Some(item.index));
  }

  //
  // editingLayerNames
  //

  /** `Array.prototype.indexOf`: the first index holding `x`, or -1. */
  function IndexOf<T(==)>(s: seq<T>, x: T): (i: int)
    ensures -1 <= i < |s|
    ensures i == -1 <==> x !in s
    ensures 0 <= i ==> s[i] == x && x !in s[..i]
  {
    if |s| == 0 then -1
    else if s[0] == x then 0
    else
      var j := IndexOf(s[1..], x);
      assert j >= 0 ==> s[..j + 1] == [s[0]] + s[1..][..j];
      if j == -1 then -1 else j + 1
  }

  /** The elements of `s` other than `x`, in order. */
  function Others<T(==)>(s: seq<T>, x: T): (r: seq<T>)
    ensures x !in r
  {
    if |s| == 0 then []
    else (if s[0] == x then [] else [s[0]]) + Others(s[1..], x)
  }

  lemma {:induction false} OthersConcat<T>(a: seq<T>, b: seq<T>, x: T)
    ensures Others(a + b, x) == Others(a, x) + Others(b, x)
  {
    if |a| > 0 {
      assert (a + b)[0] == a[0] && (a + b)[1..] == a[1..] + b;
      OthersConcat(a[1..], b, x);
    } else {
      assert a + b == b;
    }
  }

  /**
   * `editingLayerNames`: the editing layers in order, with the primary
   * layer (when it is set and non-empty, JavaScript's truthiness) moved to
   * the front.
   */
  function EditingLayerNames(names: seq<string>, primary: Option<string>): (r: seq<string>)
    ensures |r| == |names| && multiset(r) == multiset(names)
  {
    if primary.None? || primary.value == "" then names
    else
      MovedToFrontPermutes(names, primary.value);
      MovedToFront(names, primary.value)
  }

  /** `s` with its first `x` moved to the front (`splice` then `unshift`); `s` itself when `x` is absent or already first. */
  function MovedToFront<T(==)>(s: seq<T>, x: T): (r: seq<T>)
    ensures |r| == |s|
  {
    var i := IndexOf(s, x);
    if i > 0 then [x] + s[..i] + s[i + 1..] else s
  }

  /** The move only reorders. */
  lemma {:induction false} MovedToFrontPermutes<T>(s: seq<T>, x: T)
    ensures multiset(MovedToFront(s, x)) == multiset(s)
  {
    var i := IndexOf(s, x);
    if i > 0 {
      assert s == s[..i] + [s[i]] + s[i + 1..];
    }
  }

  lemma {:induction false} OthersOne<T>(x: T)
    ensures Others([x], x) == []
  {
    assert [x][1..] == [];
  }

  /** The primary layer, when it is an editing layer, comes first; the others keep their order. */
  lemma {:induction false} EditingLayerNamesOrder(names: seq<string>, primary: string)
    requires primary != "" && primary in names
    ensures EditingLayerNames(names, Some(primary))[0] == primary
    ensures Others(EditingLayerNames(names, Some(primary)), primary) == Others(names, primary)
  {
    MovedToFrontOrder(names, primary);
  }

  /** After the move `x` comes first, and the other elements keep their order. */
  lemma {:induction false} MovedToFrontOrder<T>(s: seq<T>, x: T)
    requires x in s
    ensures MovedToFront(s, x)[0] == x
    ensures Others(MovedToFront(s, x), x) == Others(s, x)
  {
    var i := IndexOf(s, x);
    if i > 0 {
      var u, v := s[..i], s[i + 1..];
      assert s == u + ([x] + v);
      OthersFront(u, x, v);
    }
  }

  /** Moving `x` to the front leaves the order of the other elements alone. */
  lemma {:induction false} OthersFront<T>(u: seq<T>, x: T, v: seq<T>)
    ensures Others(([x] + u) + v, x) == Others(u + ([x] + v), x)
  {
    var ou, ov := Others(u, x), Others(v, x);
    assert Others([x] + v, x) == ov by { OthersOne(x); OthersConcat([x], v, x); }
    assert Others([x] + u, x) == ou by { OthersOne(x); OthersConcat([x], u, x); }
    OthersConcat(u, [x] + v, x);
    OthersConcat([x] + u, v, x);
  }

  /** Without a primary layer among them, the editing layers keep their order. */
  lemma {:induction false} EditingLayerNamesUnchanged(names: seq<string>, primary: Option<string>)
    requires primary.None? || primary.value == "" || primary.value !in names || names[0] == primary.value
    ensures EditingLayerNames(names, primary) == names
  {
  }

  //
  // decomposeSelectedComponents bookkeeping
  //

  /** An anchor: a name and a position. */
  datatype Anchor = Anchor(name: string, x: real, y: real)

  function AnchorNames(anchors: seq<Anchor>): (r: seq<string>)
    ensures |r| == |anchors| && forall k :: 0 <= k < |r| ==> r[k] == anchors[k].name
  {
    seq(|anchors|, k requires 0 <= k < |anchors| => anchors[k].name)
  }

  /** The anchors after the decomposed ones are appended, each only when no anchor so far has its name. */
  function MergedAnchors(anchors: seq<Anchor>, added: seq<Anchor>): (r: seq<Anchor>)
    decreases |added|
  {
    if |added| == 0 then anchors
    else
      var before := MergedAnchors(anchors, added[..|added| - 1]);
      var a := added[|added| - 1];
      if a.name in AnchorNames(before) then before else before + [a]
  }

  /**
   * Merging keeps the existing anchors first and unchanged, gives every
   * decomposed anchor's name an anchor, adds only decomposed anchors, and
   * keeps names distinct when they were.
   */
  lemma {:induction false} MergedAnchorsProps(anchors: seq<Anchor>, added: seq<Anchor>)
    ensures var r := MergedAnchors(anchors, added);
            && |anchors| <= |r| <= |anchors| + |added|
            && r[..|anchors|] == anchors
            && (forall a :: a in added ==> a.name in AnchorNames(r))
            && (forall k :: |anchors| <= k < |r| ==> r[k] in added)
            && (Distinct(AnchorNames(anchors)) ==> Distinct(AnchorNames(r)))
    decreases |added|
  {
    if |added| > 0 {
      var init := added[..|added| - 1];
      MergedAnchorsProps(anchors, init);
      var before := MergedAnchors(anchors, init);
      var a := added[|added| - 1];
      forall b | b in added ensures b.name in AnchorNames(MergedAnchors(anchors, added)) {
        if b != a {
          assert b in init;
          var k :| 0 <= k < |before| && before[k].name == b.name;
          assert MergedAnchors(anchors, added)[k] == before[k];
        } else if a.name !in AnchorNames(before) {
          assert MergedAnchors(anchors, added)[|before|] == a;
        }
      }
      if a.name !in AnchorNames(before) {
        assert (before + [a])[..|anchors|] == before[..|anchors|];
        forall k | |anchors| <= k < |before| + 1 ensures (before + [a])[k] in added {
          if k < |before| {
            assert before[k] in init;
          }
        }
        if Distinct(AnchorNames(anchors)) {
          assert AnchorNames(before + [a]) == AnchorNames(before) + [a.name];
        }
      } else {
        forall k | |anchors| <= k < |before| ensures before[k] in added {
          assert before[k] in init;
        }
      }
    }
  }

  /** The anchor loop of `decomposeSelectedComponents`, appending to the layer's anchor list. */
  method MergeAnchors(anchors: seq<Anchor>, added: seq<Anchor>) returns (r: seq<Anchor>)
    ensures r == MergedAnchors(anchors, added)
  {
    r := anchors;
    var k := 0;
    while k < |added|
      invariant k <= |added| && r == MergedAnchors(anchors, added[..k])
    {
      assert added[..k + 1][..k] == added[..k];
      var anchor := added[k];
      var exists_ := false;
      var j := 0;
      while j < |r|
        invariant j <= |r| && (exists_ <==> anchor.name in AnchorNames(r)[..j])
      {
        assert AnchorNames(r)[..j + 1] == AnchorNames(r)[..j] + [r[j].name];
        if r[j].name == anchor.name {
          exists_ := true;
        }
        j := j + 1;
      }
      assert AnchorNames(r)[..j] == AnchorNames(r);
      if !exists_ {
        r := r + [anchor];
      }
      k := k + 1;
    }
    assert added[..k] == added;
  }

  /** `components.splice(i, 1)`: the element at `i` removed; nothing when `i` is past the end. */
  function SpliceOne<T>(s: seq<T>, i: nat): (r: seq<T>)
    ensures i < |s| ==> r == RemoveAt(s, i)
    ensures i >= |s| ==> r == s
  {
    if i < |s| then RemoveAt(s, i) else s
  }

  /** The components left after deleting the selected indices from the last to the first. */
  function DeletedDescending<T>(s: seq<T>, selection: seq<nat>): seq<T>
    decreases |selection|
  {
    if |selection| == 0 then s
    else DeletedDescending(SpliceOne(s, selection[|selection| - 1]), selection[..|selection| - 1])
  }

  /** The elements of `s`, taken as starting at index `offset`, whose index is not in `dropped`. */
  function Kept<T>(s: seq<T>, dropped: set<nat>, offset: nat): (r: seq<T>)
    ensures |r| <= |s|
  {
    if |s| == 0 then []
    else (if offset in dropped then [] else [s[0]]) + Kept(s[1..], dropped, offset + 1)
  }

  lemma {:induction false} KeptConcat<T>(a: seq<T>, b: seq<T>, dropped: set<nat>, offset: nat)
    ensures Kept(a + b, dropped, offset) == Kept(a, dropped, offset) + Kept(b, dropped, offset + |a|)
  {
    if |a| > 0 {
      assert (a + b)[0] == a[0] && (a + b)[1..] == a[1..] + b;
      KeptConcat(a[1..], b, dropped, offset + 1);
    } else {
      assert a + b == b;
    }
  }

  /** Only the indices a slice covers matter. */
  lemma {:induction false} KeptAgree<T>(s: seq<T>, d1: set<nat>, d2: set<nat>, offset: nat)
    requires forall i :: offset <= i < offset + |s| ==> (i in d1 <==> i in d2)
    ensures Kept(s, d1, offset) == Kept(s, d2, offset)
  {
    if |s| > 0 {
      KeptAgree(s[1..], d1, d2, offset + 1);
    }
  }

  /** A strictly increasing list of indices. */
  predicate Ascending(selection: seq<nat>) {
    forall a, b :: 0 <= a < b < |selection| ==> selection[a] < selection[b]
  }

  /**
   * Deleting a strictly ascending selection of component indices from the
   * last to the first removes exactly the selected components: every
   * deletion happens at an index the deletions before it have not moved.
   */
  lemma {:induction false} DeletedDescendingKeeps<T>(s: seq<T>, selection: seq<nat>)
    requires Ascending(selection) && forall k :: 0 <= k < |selection| ==> selection[k] < |s|
    ensures DeletedDescending(s, selection) == Kept(s, set k | k in selection, 0)
    ensures |DeletedDescending(s, selection)| == |s| - |selection|
    decreases |selection|
  {
    var all := set k | k in selection;
    if |selection| == 0 {
      KeptAgree(s, {}, all, 0);
      KeptAll(s, 0);
    } else {
      var n := |selection|;
      var m := selection[n - 1];
      var init := selection[..n - 1];
      assert forall k :: 0 <= k < |init| ==> init[k] == selection[k] < m;
      DeletedDescendingKeeps(RemoveAt(s, m), init);
      assert selection == init + [m];
      KeptRemoveAt(s, m, (set k | k in init), all);
    }
  }

  /** Removing the element at `m` keeps what dropping `m` as well would keep, when every other dropped index is below `m`. */
  lemma {:induction false} KeptRemoveAt<T>(s: seq<T>, m: nat, rest: set<nat>, all: set<nat>)
    requires m < |s| && all == rest + {m} && forall k :: k in rest ==> k < m
    ensures Kept(RemoveAt(s, m), rest, 0) == Kept(s, all, 0)
  {
    var u, v := s[..m], s[m + 1..];
    assert RemoveAt(s, m) == u + v;
    assert s == u + ([s[m]] + v);
    KeptSplice(u, s[m], v, rest, all);
  }

  /** `KeptRemoveAt` with the sequence given as its three parts. */
  lemma {:induction false} KeptSplice<T>(u: seq<T>, e: T, v: seq<T>, rest: set<nat>, all: set<nat>)
    requires all == rest + {|u|} && forall k :: k in rest ==> k < |u|
    ensures Kept(u + v, rest, 0) == Kept(u + ([e] + v), all, 0)
  {
    var m := |u|;
    KeptConcat(u, v, rest, 0);
    KeptConcat(u, [e] + v, all, 0);
    KeptAgree(u, rest, all, 0);
    KeptPast(v, rest, m);
    KeptDropFirst(e, v, all, m);
    KeptPast(v, all, m + 1);
  }

  /** Indices all below the slice's drop nothing from it. */
  lemma {:induction false} KeptPast<T>(v: seq<T>, dropped: set<nat>, offset: nat)
    requires forall k :: k in dropped ==> k < offset
    ensures Kept(v, dropped, offset) == v
  {
    KeptAgree(v, dropped, {}, offset);
    KeptAll(v, offset);
  }

  /** A dropped first index drops the head. */
  lemma {:induction false} KeptDropFirst<T>(e: T, v: seq<T>, dropped: set<nat>, offset: nat)
    requires offset in dropped
    ensures Kept([e] + v, dropped, offset) == Kept(v, dropped, offset + 1)
  {
    assert ([e] + v)[1..] == v;
  }

  /** Nothing dropped keeps everything. */
  lemma {:induction false} KeptAll<T>(s: seq<T>, offset: nat)
    ensures Kept(s, {}, offset) == s
  {
    if |s| > 0 {
      KeptAll(s[1..], offset + 1);
    }
  }

  /** The component loop of `decomposeSelectedComponents`: `splice(i, 1)` for each selected index, last first. */
  method DeleteComponents<T>(components: seq<T>, selection: seq<nat>) returns (r: seq<T>)
    ensures r == DeletedDescending(components, selection)
  {
    r := components;
    var k := |selection|;
    assert selection[..k] == selection;
    while k > 0
      invariant 0 <= k <= |selection|
      invariant DeletedDescending(r, selection[..k]) == DeletedDescending(components, selection)
    {
      assert selection[..k][..k - 1] == selection[..k - 1];
      r := SpliceOne(r, selection[k - 1]);
      k := k - 1;
    }
  }
}
