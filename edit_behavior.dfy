/**
 * The selection and index logic of `edit-behavior.js`: a selection split
 * by type and by contour, the neighbour window the point match rules look
 * at, the order of the edit functions, and the point changes a drag and
 * its rollback produce.
 */
module EditBehavior {
  import opened Base
  import opened PathData

  //
  // Selection strings ("point/12", "component/0")
  //

  /** What `Number` makes of the index part of a selection string. */
  datatype SelIndex = Index(n: nat) | NotANumber

  predicate IsDigit(ch: char) {
    '0' <= ch <= '9'
  }

  predicate AllDigits(s: string) {
    forall i :: 0 <= i < |s| ==> IsDigit(s[i])
  }

  function DigitChar(d: nat): (ch: char)
    requires d < 10
    ensures IsDigit(ch) && (ch as int) - ('0' as int) == d
  {
    (('0' as int) + d) as char
  }

  /** The value of a string of decimal digits; the empty string is 0, as `Number("")` is. */
  function DecimalValue(s: string): nat
    requires AllDigits(s)
  {
    if |s| == 0 then 0 else 10 * DecimalValue(s[..|s| - 1]) + ((s[|s| - 1] as int) - ('0' as int))
  }

  /** The decimal digits of `n`, as a template string writes them. */
  function DecimalString(n: nat): (s: string)
    ensures |s| >= 1 && AllDigits(s)
  {
    if n < 10 then [DigitChar(n)] else DecimalString(n / 10) + [DigitChar(n % 10)]
  }

  /** Reading back the digits written for `n` gives `n`. */
  lemma {:induction false} DecimalRoundTrip(n: nat)
    ensures DecimalValue(DecimalString(n)) == n
  {
    if n >= 10 {
      DecimalRoundTrip(n / 10);
      var s := DecimalString(n);
      assert s[..|s| - 1] == DecimalString(n / 10);
    }
  }

  /**
   * `Number(index)` on the index part of a selection key. The keys the
   * program writes hold decimal digits, which give their value; a
   * missing part gives `NaN`. Any other text is taken as `NaN` here,
   * although JavaScript's `Number` also reads a sign, surrounding blanks,
   * an exponent or a hexadecimal prefix.
   */
  function NumberOf(s: Option<string>): (r: SelIndex)
    ensures r.Index? <==> s.Some? && AllDigits(s.value)
  {
    match s
    case None => NotANumber
    case Some(t) => if AllDigits(t) then Index(DecimalValue(t)) else NotANumber
  }

  /** `s.split(sep)` for a one-character separator: the pieces between the separators. */
  function Split(s: string, sep: char): (parts: seq<string>)
    ensures |parts| >= 1
    ensures forall k :: 0 <= k < |parts| ==> sep !in parts[k]
  {
    if |s| == 0 then [""]
    else
      var rest := Split(s[..|s| - 1], sep);
      if s[|s| - 1] == sep then rest + [""]
      else rest[..|rest| - 1] + [rest[|rest| - 1] + [s[|s| - 1]]]
  }

  /** `parts.join(sep)`. */
  function Join(parts: seq<string>, sep: char): string
    requires |parts| >= 1
  {
    if |parts| == 1 then parts[0] else Join(parts[..|parts| - 1], sep) + [sep] + parts[|parts| - 1]
  }

  /** Splitting and joining again gives the string back. */
  lemma {:induction false} SplitJoin(s: string, sep: char)
    ensures Join(Split(s, sep), sep) == s
  {
    if |s| > 0 {
      var init := s[..|s| - 1];
      var rest := Split(init, sep);
      SplitJoin(init, sep);
      var c := s[|s| - 1];
      if c == sep {
        assert Split(s, sep) == rest + [""];
        assert Join(rest + [""], sep) == Join(rest, sep) + [sep] by {
          assert (rest + [""])[..|rest|] == rest;
        }
      } else {
        assert Split(s, sep) == rest[..|rest| - 1] + [rest[|rest| - 1] + [c]];
        JoinExtendLast(rest, sep, c);
      }
      assert s == init + [c];
    }
  }

  /** Extending the last piece extends the joined string. */
  lemma JoinExtendLast(parts: seq<string>, sep: char, c: char)
    requires |parts| >= 1
    ensures Join(parts[..|parts| - 1] + [parts[|parts| - 1] + [c]], sep) == Join(parts, sep) + [c]
  {
    var n := |parts|;
    var q := parts[..n - 1] + [parts[n - 1] + [c]];
    if n > 1 {
      assert q[..n - 1] == parts[..n - 1];
    }
  }

  /** A string without the separator, appended after one, becomes one more piece. */
  lemma {:induction false} SplitAfterSeparator(prefix: string, sep: char, t: string)
    requires sep !in t
    ensures Split(prefix + [sep] + t, sep) == Split(prefix, sep) + [t]
  {
    if |t| == 0 {
      assert prefix + [sep] + t == prefix + [sep];
      assert (prefix + [sep])[..|prefix|] == prefix;
    } else {
      var t' := t[..|t| - 1];
      SplitAfterSeparator(prefix, sep, t');
      var s := prefix + [sep] + t;
      assert s[..|s| - 1] == prefix + [sep] + t';
      assert t' + [t[|t| - 1]] == t;
    }
  }

  /** Pieces without the separator, joined, split back into themselves. */
  lemma {:induction false} JoinSplit(parts: seq<string>, sep: char)
    requires |parts| >= 1 && forall k :: 0 <= k < |parts| ==> sep !in parts[k]
    ensures Split(Join(parts, sep), sep) == parts
  {
    if |parts| == 1 {
      SplitWithoutSeparator(parts[0], sep);
    } else {
      var init := parts[..|parts| - 1];
      JoinSplit(init, sep);
      SplitAfterSeparator(Join(init, sep), sep, parts[|parts| - 1]);
    }
  }

  lemma {:induction false} SplitWithoutSeparator(t: string, sep: char)
    requires sep !in t
    ensures Split(t, sep) == [t]
  {
    if |t| > 0 {
      SplitWithoutSeparator(t[..|t| - 1], sep);
      assert t[..|t| - 1] + [t[|t| - 1]] == t;
    }
  }

  /** `let [tp, index] = selItem.split("/")`, the index through `Number`. */
  function ParseSelectionItem(item: string): (string, SelIndex) {
    var parts := Split(item, '/');
    (parts[0], NumberOf(if |parts| > 1 then Some(parts[1]) else None))
  }

  /** The selection string of item `i` of type `tp`. */
  function SelectionKey(tp: string, i: nat): string {
    tp + "/" + DecimalString(i)
  }

  /** A selection string built from a type without a slash parses back into that type and index. */
  lemma ParseSelectionKey(tp: string, i: nat)
    requires '/' !in tp
    ensures ParseSelectionItem(SelectionKey(tp, i)) == (tp, Index(i))
  {
    var digits := DecimalString(i);
    assert '/' !in digits by {
      forall k | 0 <= k < |digits| ensures digits[k] != '/' {
        assert IsDigit(digits[k]);
      }
    }
    assert Join([tp, digits], '/') == SelectionKey(tp, i) by {
      assert [tp, digits][..1] == [tp];
    }
    JoinSplit([tp, digits], '/');
    DecimalRoundTrip(i);
  }

  //
  // Sorting with `(a, b) => a - b`
  //

  /** The comparator's "sorts before": both numbers and the first smaller (`NaN` compares as equal). */
  predicate Less(a: SelIndex, b: SelIndex) {
    a.Index? && b.Index? && a.n < b.n
  }

  /** `x` placed into a sorted run after every element it does not sort before, as a stable sort does. */
  function InsertSorted(s: seq<SelIndex>, x: SelIndex): (r: seq<SelIndex>)
    ensures multiset(r) == multiset(s) + multiset{x}
  {
    if |s| == 0 || !Less(x, s[|s| - 1]) then s + [x]
    else
      assert s == s[..|s| - 1] + [s[|s| - 1]];
      InsertSorted(s[..|s| - 1], x) + [s[|s| - 1]]
  }

  /** `indices.sort((a, b) => a - b)`, as a stable insertion sort. */
  function SortIndices(s: seq<SelIndex>): (r: seq<SelIndex>)
    ensures multiset(r) == multiset(s)
  {
    if |s| == 0 then []
    else
      assert s == s[..|s| - 1] + [s[|s| - 1]];
      InsertSorted(SortIndices(s[..|s| - 1]), s[|s| - 1])
  }

  predicate AllNumbers(s: seq<SelIndex>) {
    forall k :: 0 <= k < |s| ==> s[k].Index?
  }

  predicate Ascending(s: seq<SelIndex>)
    requires AllNumbers(s)
  {
    forall a, b :: 0 <= a < b < |s| ==> s[a].n <= s[b].n
  }

  lemma {:induction false} InsertSortedAscending(s: seq<SelIndex>, x: SelIndex)
    requires AllNumbers(s) && Ascending(s) && x.Index?
    ensures AllNumbers(InsertSorted(s, x)) && Ascending(InsertSorted(s, x))
  {
    if |s| > 0 && Less(x, s[|s| - 1]) {
      var init := s[..|s| - 1];
      var last := s[|s| - 1];
      InsertSortedAscending(init, x);
      InsertSortedAtMost(init, x, last.n);
      assert InsertSorted(s, x) == InsertSorted(init, x) + [last];
    }
  }

  /** Inserting a number no larger than `bound` keeps every number at most `bound`. */
  lemma {:induction false} InsertSortedAtMost(s: seq<SelIndex>, x: SelIndex, bound: int)
    requires AllNumbers(s) && x.Index? && x.n <= bound
    requires forall k :: 0 <= k < |s| ==> s[k].n <= bound
    ensures var r := InsertSorted(s, x);
            AllNumbers(r) && forall k :: 0 <= k < |r| ==> r[k].n <= bound
  {
    if |s| > 0 && Less(x, s[|s| - 1]) {
      InsertSortedAtMost(s[..|s| - 1], x, bound);
      assert InsertSorted(s, x) == InsertSorted(s[..|s| - 1], x) + [s[|s| - 1]];
    } else {
      assert InsertSorted(s, x) == s + [x];
    }
  }

  /** With numbers only, the sorted indices are ascending. */
  lemma {:induction false} SortIndicesAscending(s: seq<SelIndex>)
    requires AllNumbers(s)
    ensures AllNumbers(SortIndices(s)) && Ascending(SortIndices(s))
  {
    if |s| > 0 {
      SortIndicesAscending(s[..|s| - 1]);
      InsertSortedAscending(SortIndices(s[..|s| - 1]), s[|s| - 1]);
    }
  }

  //
  // splitSelectionByType
  //

  /** The types named in a selection. */
  function TypesOf(selection: seq<string>): set<string> {
    if |selection| == 0 then {}
    else TypesOf(selection[..|selection| - 1]) + {ParseSelectionItem(selection[|selection| - 1]).0}
  }

  /** The indices of the items of type `tp`, in selection order. */
  function IndicesOfType(selection: seq<string>, tp: string): seq<SelIndex> {
    if |selection| == 0 then []
    else
      var (t, index) := ParseSelectionItem(selection[|selection| - 1]);
      IndicesOfType(selection[..|selection| - 1], tp) + (if t == tp then [index] else [])
  }

  /** A type is listed exactly when some item has it. */
  lemma {:induction false} TypesOfAre(selection: seq<string>, tp: string)
    ensures tp in TypesOf(selection) <==> exists k :: 0 <= k < |selection| && ParseSelectionItem(selection[k]).0 == tp
  {
    if |selection| > 0 {
      var init := selection[..|selection| - 1];
      TypesOfAre(init, tp);
      if tp in TypesOf(init) {
        var k :| 0 <= k < |init| && ParseSelectionItem(init[k]).0 == tp;
        assert selection[k] == init[k];
      }
      if exists k :: 0 <= k < |selection| && ParseSelectionItem(selection[k]).0 == tp {
        var k :| 0 <= k < |selection| && ParseSelectionItem(selection[k]).0 == tp;
        if k < |init| {
          assert init[k] == selection[k];
        }
      }
    }
  }

  /** An index is in a type's group exactly as often as items of that type carry it. */
  lemma {:induction false} IndicesOfTypeAre(selection: seq<string>, tp: string, x: SelIndex)
    ensures x in IndicesOfType(selection, tp) <==> exists k :: 0 <= k < |selection| && ParseSelectionItem(selection[k]) == (tp, x)
  {
    if |selection| > 0 {
      var init := selection[..|selection| - 1];
      IndicesOfTypeAre(init, tp, x);
      if x in IndicesOfType(init, tp) {
        var k :| 0 <= k < |init| && ParseSelectionItem(init[k]) == (tp, x);
        assert selection[k] == init[k];
      }
      if exists k :: 0 <= k < |selection| && ParseSelectionItem(selection[k]) == (tp, x) {
        var k :| 0 <= k < |selection| && ParseSelectionItem(selection[k]) == (tp, x);
        if k < |init| {
          assert init[k] == selection[k];
        }
      }
    }
  }

  /** A type no item has has no indices. */
  lemma {:induction false} UnlistedTypeHasNoIndices(selection: seq<string>, tp: string)
    requires tp !in TypesOf(selection)
    ensures IndicesOfType(selection, tp) == []
  {
    if |selection| > 0 {
      UnlistedTypeHasNoIndices(selection[..|selection| - 1], tp);
    }
  }

  /** One more item adds its type, and its index to its type's group only. */
  lemma TypesStep(selection: seq<string>, i: nat)
    requires i < |selection|
    ensures TypesOf(selection[..i + 1]) == TypesOf(selection[..i]) + {ParseSelectionItem(selection[i]).0}
    ensures forall tp :: IndicesOfType(selection[..i + 1], tp)
                         == IndicesOfType(selection[..i], tp)
                            + (if ParseSelectionItem(selection[i]).0 == tp then [ParseSelectionItem(selection[i]).1] else [])
  {
    assert selection[..i + 1][..i] == selection[..i];
  }

  /**
   * `splitSelectionByType`: one group per type, holding the indices of
   * that type's items, sorted.
   */
  method SplitSelectionByType(selection: seq<string>) returns (result: map<string, seq<SelIndex>>)
    ensures result.Keys == TypesOf(selection)
    ensures forall tp :: tp in result ==> result[tp] == SortIndices(IndicesOfType(selection, tp))
  {
    result := map[];
    var i := 0;
    while i < |selection|
      invariant i <= |selection|
      invariant result.Keys == TypesOf(selection[..i])
      invariant forall tp :: tp in result ==> result[tp] == IndicesOfType(selection[..i], tp)
    {
      var (tp, index) := ParseSelectionItem(selection[i]);
      TypesStep(selection, i);
      if tp !in result {
        UnlistedTypeHasNoIndices(selection[..i], tp);
        result := result[tp := []];
      }
      result := result[tp := result[tp] + [index]];
      i := i + 1;
    }
    assert selection[..i] == selection;
    result := SortGroups(result);
  }

  /** The loop that sorts every group of `splitSelectionByType` in place. */
  method SortGroups(groups: map<string, seq<SelIndex>>) returns (result: map<string, seq<SelIndex>>)
    ensures result.Keys == groups.Keys
    ensures forall tp :: tp in result ==> result[tp] == SortIndices(groups[tp])
  {
    result := groups;
    var keys := result.Keys;
    while keys != {}
      invariant keys <= result.Keys && result.Keys == groups.Keys
      invariant forall tp :: tp in result ==> result[tp] == if tp in keys then groups[tp] else SortIndices(groups[tp])
      decreases |keys|
    {
      var tp :| tp in keys;
      result := result[tp := SortIndices(result[tp])];
      keys := keys - {tp};
    }
  }

  //
  // splitPointSelectionByContour
  //

  /** The errors the edit behaviour raises. */
  datatype EditError =
    | TypeError                    // a property read on `undefined`
    | ContourArraysLengthMismatch  // "assert -- contour arrays length mismatch"
    | ReferenceError               // a name that is not defined

  /**
   * Where `while (path.contourInfo[contourIndex].endPoint < pointIndex)
   * contourIndex++` stops, starting at contour `c`; `None` when it runs
   * past the last contour, where the read raises a `TypeError`.
   */
  function AdvanceContour(ci: seq<ContourInfo>, c: nat, pointIndex: int): (r: Option<nat>)
    requires c <= |ci|
    ensures r.Some? ==> c <= r.value < |ci| && pointIndex <= ci[r.value].endPoint
    decreases |ci| - c
  {
    if c == |ci| then None
    else if ci[c].endPoint < pointIndex then AdvanceContour(ci, c + 1, pointIndex)
    else Some(c)
  }

  /** From a contour that starts at or before a point of the path, the loop stops at the contour holding that point. */
  lemma {:induction false} AdvanceFindsContour(ci: seq<ContourInfo>, c: nat, x: int)
    requires EndPointsOrdered(ci) && c <= |ci|
    requires ContourStart(ci, c) <= x < ContourStart(ci, |ci|)
    ensures AdvanceContour(ci, c, x).Some?
    ensures ContourStart(ci, AdvanceContour(ci, c, x).value) <= x <= ci[AdvanceContour(ci, c, x).value].endPoint
    decreases |ci| - c
  {
    if ci[c].endPoint < x {
      AdvanceFindsContour(ci, c + 1, x);
    }
  }

  /** The list a missing array entry (`undefined`) stands for when a point is pushed onto it. */
  function Existing(entry: Option<seq<int>>): seq<int> {
    if entry.None? then [] else entry.value
  }

  /** `contours` and `contourIndex` after the loop has taken `indices`, or the error it raised. */
  function SplitState(ci: seq<ContourInfo>, indices: seq<int>): (r: Result<(seq<Option<seq<int>>>, nat), EditError>)
    ensures r.Ok? ==> |r.value.0| == |ci| && r.value.1 <= |ci|
    ensures r.Err? ==> r.error == TypeError
  {
    if |indices| == 0 then Ok((seq(|ci|, _ => None), 0))
    else
      match SplitState(ci, indices[..|indices| - 1])
      case Err(e) => Err(e)
      case Ok((contours, c)) =>
        match AdvanceContour(ci, c, indices[|indices| - 1])
        case None => Err(TypeError)
        case Some(d) => Ok((contours[d := Some(Existing(contours[d]) + [indices[|indices| - 1]])], d))
  }

  /** What `splitPointSelectionByContour` returns, or the error it raises. */
  function SplitResult(ci: seq<ContourInfo>, indices: seq<int>): Result<seq<Option<seq<int>>>, EditError> {
    match SplitState(ci, indices)
    case Ok((contours, _)) => Ok(contours)
    case Err(e) => Err(e)
  }

  /** Once the loop has raised, the whole call has. */
  lemma {:induction false} SplitErrorSticks(ci: seq<ContourInfo>, indices: seq<int>, k: nat)
    requires k <= |indices| && SplitState(ci, indices[..k]).Err?
    ensures SplitState(ci, indices).Err?
    decreases |indices| - k
  {
    if k < |indices| {
      assert indices[..k + 1][..k] == indices[..k];
      SplitErrorSticks(ci, indices, k + 1);
    } else {
      assert indices[..k] == indices;
    }
  }

  /**
   * `splitPointSelectionByContour`: one entry per contour, built by
   * walking the contours forward as the point indices come.
   */
  method SplitPointSelectionByContour(contourInfo: seq<ContourInfo>, pointIndices: seq<int>)
    returns (r: Result<seq<Option<seq<int>>>, EditError>)
    ensures r == SplitResult(contourInfo, pointIndices)
  {
    var contours: seq<Option<seq<int>>> := seq(|contourInfo|, _ => None);
    var contourIndex: nat := 0;
    var k := 0;
    while k < |pointIndices|
      invariant k <= |pointIndices|
      invariant SplitState(contourInfo, pointIndices[..k]) == Ok((contours, contourIndex))
    {
      var pointIndex := pointIndices[k];
      ghost var from := contourIndex;
      while contourIndex < |contourInfo| && contourInfo[contourIndex].endPoint < pointIndex
        invariant from <= contourIndex <= |contourInfo|
        invariant AdvanceContour(contourInfo, contourIndex, pointIndex) == AdvanceContour(contourInfo, from, pointIndex)
        decreases |contourInfo| - contourIndex
      {
        contourIndex := contourIndex + 1;
      }
      assert pointIndices[..k + 1][..k] == pointIndices[..k];
      if contourIndex == |contourInfo| {
        SplitErrorSticks(contourInfo, pointIndices, k + 1);
        return Err(TypeError);
      }
      contours := contours[contourIndex := Some(Existing(contours[contourIndex]) + [pointIndex])];
      k := k + 1;
    }
    assert pointIndices[..k] == pointIndices;
    r := Ok(contours);
  }

  /** The indices that lie in contour `c`, in their order. */
  function InContour(ci: seq<ContourInfo>, c: nat, indices: seq<int>): seq<int>
    requires c < |ci|
  {
    if |indices| == 0 then []
    else
      var x := indices[|indices| - 1];
      InContour(ci, c, indices[..|indices| - 1]) + (if ContourStart(ci, c) <= x <= ci[c].endPoint then [x] else [])
  }

  /** An entry for a list of indices: `undefined` when empty. */
  function EntryOf(s: seq<int>): Option<seq<int>> {
    if s == [] then None else Some(s)
  }

  predicate SortedIndices(indices: seq<int>) {
    forall a, b :: 0 <= a < b < |indices| ==> indices[a] <= indices[b]
  }

  /** The loop state on sorted point indices of the path: every entry lists its contour's indices, and the loop stands at the last one's contour. */
  lemma {:induction false} SplitStateInContours(p: PathValue, indices: seq<int>)
    requires Wf(p) && SortedIndices(indices)
    requires forall k :: 0 <= k < |indices| ==> 0 <= indices[k] < |p.pointTypes|
    ensures SplitState(p.contourInfo, indices).Ok?
    ensures forall c :: 0 <= c < |p.contourInfo| ==>
              SplitState(p.contourInfo, indices).value.0[c] == EntryOf(InContour(p.contourInfo, c, indices))
    ensures |indices| > 0 ==> var cur := SplitState(p.contourInfo, indices).value.1;
              ContourStart(p.contourInfo, cur) <= indices[|indices| - 1] <= p.contourInfo[cur].endPoint
    ensures |indices| == 0 ==> SplitState(p.contourInfo, indices).value.1 == 0
  {
    var ci := p.contourInfo;
    if |indices| > 0 {
      var init := indices[..|indices| - 1];
      var x := indices[|indices| - 1];
      SplitStateInContours(p, init);
      var (contours, cur) := SplitState(ci, init).value;
      if |init| > 0 {
        assert init[|init| - 1] <= x;
      }
      AdvanceFindsContour(ci, cur, x);
      var d := AdvanceContour(ci, cur, x).value;
      forall c | 0 <= c < |ci|
        ensures SplitState(ci, indices).value.0[c] == EntryOf(InContour(ci, c, indices))
      {
        if c == d {
          assert InContour(ci, c, indices) == InContour(ci, c, init) + [x];
        } else {
          if ContourStart(ci, c) <= x <= ci[c].endPoint {
            ContainingContourUnique(p, c, d, x);
          }
          assert InContour(ci, c, indices) == InContour(ci, c, init);
        }
      }
    }
  }

  /**
   * On sorted point indices of the path, entry `c` is `undefined` exactly
   * when no selected point lies in contour `c`, and otherwise lists the
   * selected points of contour `c` in their order.
   */
  lemma SplitByContourIsFilter(p: PathValue, indices: seq<int>)
    requires Wf(p) && SortedIndices(indices)
    requires forall k :: 0 <= k < |indices| ==> 0 <= indices[k] < |p.pointTypes|
    ensures SplitResult(p.contourInfo, indices).Ok?
    ensures |SplitResult(p.contourInfo, indices).value| == |p.contourInfo|
    ensures forall c :: 0 <= c < |p.contourInfo| ==>
              SplitResult(p.contourInfo, indices).value[c] == EntryOf(InContour(p.contourInfo, c, indices))
  {
    SplitStateInContours(p, indices);
  }

  //
  // findPointMatch
  //

  /** A contour point as the matcher sees it: the path point plus the `selected` mark. */
  datatype MarkedPoint = MarkedPoint(point: Point, selected: bool)

  /**
   * The key a neighbour contributes to the walk down the match tree:
   * one of the eight `POINT_TYPES` entries, or `DOESNT_EXIST` for a
   * neighbour past the end of an open contour.
   */
  datatype PointClass = Present(smooth: bool, onCurve: bool, selected: bool) | Missing

  /** A rule: the direction the neighbours are read in, whether it constrains, and its action's name. */
  datatype Rule = Rule(direction: int, constrain: bool, action: string)

  /** The match tree: five levels of point classes above the rules. */
  datatype MatchTree = Node(children: map<PointClass, MatchTree>) | Leaf(rule: Rule)

  /** The contour-relative index of the neighbour at `offset`: reduced modulo `numPoints` in a closed contour. */
  function NeighborIndex(pointIndex: int, offset: int, numPoints: nat, isClosed: bool): (r: int)
    requires numPoints > 0
    ensures isClosed ==> 0 <= r < numPoints
    ensures !isClosed ==> r == pointIndex + offset
  {
    if isClosed then (pointIndex + offset) % numPoints else pointIndex + offset
  }

  /** Reduction modulo `n` of an index at most one contour length outside the contour. */
  lemma ModNear(a: int, n: int)
    requires n > 0 && -n <= a < 2 * n
    ensures a % n == (if a < 0 then a + n else if a >= n then a - n else a)
  {
    if a < 0 { ModBelow(a, n); } else if a >= n { ModAbove(a, n); } else { ModWithin(a, n); }
  }

  lemma ModBelow(a: int, n: int)
    requires n > 0 && -n <= a < 0
    ensures a % n == a + n
  {
  }

  lemma ModAbove(a: int, n: int)
    requires n > 0 && n <= a < 2 * n
    ensures a % n == a - n
  {
  }

  lemma ModWithin(a: int, n: int)
    requires n > 0 && 0 <= a < n
    ensures a % n == a
  {
  }

  /**
   * In a closed contour a neighbour index wraps around: an index before
   * the start continues from the end, one past the end from the start.
   */
  lemma ClosedNeighborWraps(pointIndex: nat, offset: int, numPoints: nat)
    requires pointIndex < numPoints && -(numPoints as int) <= offset <= numPoints
    ensures NeighborIndex(pointIndex, offset, numPoints, true) ==
              if pointIndex + offset < 0 then pointIndex + offset + numPoints
              else if pointIndex + offset >= numPoints then pointIndex + offset - numPoints
              else pointIndex + offset
  {
    ModNear(pointIndex + offset, numPoints);
  }

  /** The five neighbour indices for offsets -2 through 2. */
  function Window(pointIndex: int, numPoints: nat, isClosed: bool): (w: seq<int>)
    requires numPoints > 0
    ensures |w| == 5
  {
    seq(5, k => NeighborIndex(pointIndex, k - 2, numPoints, isClosed))
  }

  /** The class of contour point `j`, where "on-curve" means the point has no off-curve type. */
  function ClassAt(points: seq<MarkedPoint>, j: int): (c: PointClass)
    ensures c.Missing? <==> !(0 <= j < |points|)
    ensures c.Present? ==> c.onCurve == points[j].point.pointType.None? && c.selected == points[j].selected
  {
    if 0 <= j < |points| then
      Present(points[j].point.smooth, points[j].point.pointType.None?, points[j].selected)
    else
      Missing
  }

  function ClassesOf(points: seq<MarkedPoint>, window: seq<int>): (cs: seq<PointClass>)
    ensures |cs| == |window|
  {
    seq(|window|, k requires 0 <= k < |window| => ClassAt(points, window[k]))
  }

  /** One step down the tree: `match[pointType]`, `undefined` when the key is absent. */
  function Step(m: Option<MatchTree>, c: PointClass): Option<MatchTree> {
    match m
    case Some(Node(children)) => if c in children then Some(children[c]) else None
    case _ => None
  }

  /** Where the walk from the root stands after the keys `cs`; `None` once a key is absent. */
  function WalkMatch(tree: MatchTree, cs: seq<PointClass>): Option<MatchTree> {
    if |cs| == 0 then Some(tree) else Step(WalkMatch(tree, cs[..|cs| - 1]), cs[|cs| - 1])
  }

  /** Once a key is absent the walk stays at `undefined`, so stopping at the first miss loses nothing. */
  lemma {:induction false} WalkStaysFailed(tree: MatchTree, cs: seq<PointClass>, k: nat)
    requires k <= |cs| && WalkMatch(tree, cs[..k]).None?
    ensures WalkMatch(tree, cs).None?
    decreases |cs| - k
  {
    if k < |cs| {
      assert cs[..k + 1][..k] == cs[..k];
      WalkStaysFailed(tree, cs, k + 1);
    } else {
      assert cs[..k] == cs;
    }
  }

  /**
   * `findPointMatch`: walks the tree with the classes of the neighbours
   * at offsets -2 to 2 and stops at the first absent key; the neighbour
   * indices pushed so far come back with the match.
   */
  method FindPointMatch(tree: MatchTree, pointIndex: nat, contourPoints: seq<MarkedPoint>, isClosed: bool)
    returns (m: Option<MatchTree>, neighbors: seq<int>)
    requires pointIndex < |contourPoints|
    ensures m == WalkMatch(tree, ClassesOf(contourPoints, Window(pointIndex, |contourPoints|, isClosed)))
    ensures 1 <= |neighbors| <= 5 && neighbors == Window(pointIndex, |contourPoints|, isClosed)[..|neighbors|]
    ensures m.Some? ==> |neighbors| == 5
    ensures |neighbors| < 5 ==> WalkMatch(tree, ClassesOf(contourPoints, neighbors)).None?
  {
    var numPoints := |contourPoints|;
    ghost var window := Window(pointIndex, numPoints, isClosed);
    ghost var cs := ClassesOf(contourPoints, window);
    m := Some(tree);
    neighbors := [];
    var k := 0;
    while k < 5
      invariant 0 <= k <= 5 && neighbors == window[..k]
      invariant m == WalkMatch(tree, cs[..k]) && m.Some?
    {
      var neighborIndex := NeighborIndex(pointIndex, k - 2, numPoints, isClosed);
      assert window[k] == neighborIndex;
      neighbors := neighbors + [neighborIndex];
      assert neighbors == window[..k + 1];
      var pointType := ClassAt(contourPoints, neighborIndex);
      assert cs[k] == pointType;
      assert cs[..k + 1][..k] == cs[..k];
      m := Step(m, pointType);
      if m.None? {
        WalkStaysFailed(tree, cs, k + 1);
        assert ClassesOf(contourPoints, neighbors) == cs[..k + 1];
        return;
      }
      k := k + 1;
    }
    assert cs[..5] == cs;
  }

  /** In a closed contour every neighbour exists, and the middle one is the point itself. */
  lemma ClosedWindowInContour(points: seq<MarkedPoint>, pointIndex: nat)
    requires pointIndex < |points|
    ensures forall k :: 0 <= k < 5 ==> ClassesOf(points, Window(pointIndex, |points|, true))[k].Present?
    ensures Window(pointIndex, |points|, true)[2] == pointIndex
  {
    ClosedNeighborWraps(pointIndex, 0, |points|);
  }

  /**
   * In an open contour the neighbour at an offset is missing exactly when
   * the offset leaves the contour; so the first point sees two missing
   * neighbours before it, and the last point two after it.
   */
  lemma OpenWindowMissing(points: seq<MarkedPoint>, pointIndex: nat, k: nat)
    requires pointIndex < |points| && k < 5
    ensures ClassesOf(points, Window(pointIndex, |points|, false))[k].Missing? <==> !(0 <= pointIndex + k - 2 < |points|)
    ensures Window(pointIndex, |points|, false)[2] == pointIndex
  {
  }

  //
  // findPointMatch as written: `DOESNT_EXIST` is not imported, so a
  // missing neighbour raises a ReferenceError, and `point.type === 0`
  // compares the type name with a number, so no point is on-curve.
  //

  /** The class of contour point `j` as the code computes it. */
  function ClassAtAsWritten(points: seq<MarkedPoint>, j: int): (r: Result<PointClass, EditError>)
    ensures r.Err? <==> !(0 <= j < |points|)
    ensures r.Ok? ==> r.value.Present? && !r.value.onCurve
  {
    if 0 <= j < |points| then
      Ok(Present(points[j].point.smooth, false, points[j].selected))
    else
      Err(ReferenceError)
  }

  /** The walk as written, from offset `-2 + |done|` on, after the keys `done`. */
  function WalkAsWritten(tree: MatchTree, m: Option<MatchTree>, pointIndex: int, points: seq<MarkedPoint>, isClosed: bool, k: nat): Result<Option<MatchTree>, EditError>
    requires |points| > 0 && k <= 5
    decreases 5 - k
  {
    if k == 5 then Ok(m)
    else
      match ClassAtAsWritten(points, NeighborIndex(pointIndex, k - 2, |points|, isClosed))
      case Err(e) => Err(e)
      case Ok(c) =>
        var next := Step(m, c);
        if next.None? then Ok(None) else WalkAsWritten(tree, next, pointIndex, points, isClosed, k + 1)
  }

  /** `findPointMatch` as written: the match, or the error it raises. */
  function FindPointMatchAsWritten(tree: MatchTree, pointIndex: nat, points: seq<MarkedPoint>, isClosed: bool): Result<Option<MatchTree>, EditError>
    requires pointIndex < |points|
  {
    WalkAsWritten(tree, Some(tree), pointIndex, points, isClosed, 0)
  }

  /** As written, matching the first point of any open contour raises, whatever the tree. */
  lemma AsWrittenOpenStartRaises(tree: MatchTree, points: seq<MarkedPoint>)
    requires |points| > 0
    ensures FindPointMatchAsWritten(tree, 0, points, false) == Err(ReferenceError)
  {
  }

  /** The tree a rule keyed on an on-curve neighbour hangs in. */
  function OnCurveRuleTree(r: Rule): MatchTree {
    var any := Present(false, true, true);
    Node(map[any := Node(map[any := Node(map[any := Node(map[any := Node(map[any := Leaf(r)])])])])])
  }

  /**
   * As written, a rule asking for on-curve points never matches: five
   * selected on-curve points of a closed contour reach the rule through
   * the corrected classes, and no rule through the written ones.
   */
  lemma AsWrittenMissesOnCurve(r: Rule, pt: Point)
    requires pt.pointType.None? && !pt.smooth
    ensures var points := seq(5, _ => MarkedPoint(pt, true));
            FindPointMatchAsWritten(OnCurveRuleTree(r), 2, points, true) == Ok(None)
            && WalkMatch(OnCurveRuleTree(r), ClassesOf(points, Window(2, 5, true))) == Some(Leaf(r))
  {
    var points := seq(5, _ => MarkedPoint(pt, true));
    var tree := OnCurveRuleTree(r);
    var cs := ClassesOf(points, Window(2, 5, true));
    var c := Present(false, true, true);
    assert forall k :: 0 <= k < 5 ==> cs[k] == c;
    assert cs[..0] == [];
    assert WalkMatch(tree, cs[..1]) == Step(WalkMatch(tree, cs[..0]), c) by { assert cs[..1][..0] == cs[..0]; }
    assert WalkMatch(tree, cs[..2]) == Step(WalkMatch(tree, cs[..1]), c) by { assert cs[..2][..1] == cs[..1]; }
    assert WalkMatch(tree, cs[..3]) == Step(WalkMatch(tree, cs[..2]), c) by { assert cs[..3][..2] == cs[..2]; }
    assert WalkMatch(tree, cs[..4]) == Step(WalkMatch(tree, cs[..3]), c) by { assert cs[..4][..3] == cs[..3]; }
    assert WalkMatch(tree, cs) == Step(WalkMatch(tree, cs[..4]), c) by { assert cs[..4] == cs[..|cs| - 1]; }
  }

  //
  // makeContourPointEditFuncs and makePointEditFuncs
  //

  /** The names `defaultActions` defines. */
  const DefaultActions: set<string> :=
    {"DontMove", "Move", "RotateNext", "ConstrainPrevAngle", "ConstrainMiddle", "TangentIntersect", "HandleIntersect"}

  /**
   * An edit function: the action of one matched point, with the contour's
   * start, the point and its neighbours (contour-relative, in the order
   * the rule reads them) and whether it constrains.
   */
  datatype EditFunc = EditFunc(startPoint: nat, thePoint: int, neighbors: seq<int>, action: string, constrain: bool)

  /** A match's direction, constrain flag and action; a match that is not a rule has none (`undefined`). */
  function DirectionOf(m: MatchTree): int {
    if m.Leaf? then m.rule.direction else 0
  }

  function ConstrainOf(m: MatchTree): bool {
    m.Leaf? && m.rule.constrain
  }

  function ActionOf(m: MatchTree): Option<string> {
    if m.Leaf? then Some(m.rule.action) else None
  }

  /** Point `i` of the path, for `i` in range. */
  function PathPoint(p: PathValue, i: nat): Point
    requires |p.coordinates| == 2 * |p.pointTypes| && i < |p.pointTypes|
  {
    GetPointValue(p, i).value
  }

  /**
   * The contour's points with the selected ones marked, or the
   * `TypeError` of marking an index outside the contour.
   */
  function MarkedPoints(p: PathValue, selected: seq<int>, startPoint: nat, endPoint: nat): (r: Result<seq<MarkedPoint>, EditError>)
    requires |p.coordinates| == 2 * |p.pointTypes| && startPoint <= endPoint <= |p.pointTypes|
    ensures r.Ok? ==> |r.value| == endPoint - startPoint
    ensures r.Err? ==> r.error == TypeError
  {
    if forall k :: 0 <= k < |selected| ==> startPoint <= selected[k] < endPoint then
      Ok(seq(endPoint - startPoint, j requires 0 <= j < endPoint - startPoint =>
        MarkedPoint(PathPoint(p, startPoint + j), startPoint + j in selected)))
    else
      Err(TypeError)
  }

  /**
   * One turn of the matching loop: a point without a match adds nothing;
   * a matched point participates; a matched point with a defined action
   * also adds an edit func to the transforms or to the constrains.
   */
  function MatchStep(acc: (seq<EditFunc>, seq<EditFunc>, seq<int>), m: Option<MatchTree>, window: seq<int>,
                     startPoint: nat, actions: set<string>): (seq<EditFunc>, seq<EditFunc>, seq<int>)
    requires |window| == 5
  {
    var (transforms, constrains, participating) := acc;
    match m
    case None => acc
    case Some(rule) =>
      var nb := if DirectionOf(rule) > 0 then window else Reverse(window);
      var participating' := participating + [nb[2] + startPoint];
      if ActionOf(rule).None? || ActionOf(rule).value !in actions then (transforms, constrains, participating')
      else
        var f := EditFunc(startPoint, nb[2], nb, ActionOf(rule).value, ConstrainOf(rule));
        if !f.constrain then (transforms + [f], constrains, participating')
        else (transforms, constrains + [f], participating')
  }

  /** What the matching loop has built after the contour's first `i` points: transform funcs, constrain funcs, participating indices. */
  function ContourFuncs(tree: MatchTree, actions: set<string>, points: seq<MarkedPoint>, startPoint: nat, isClosed: bool, i: nat)
    : (seq<EditFunc>, seq<EditFunc>, seq<int>)
    requires i <= |points|
  {
    if i == 0 then ([], [], [])
    else
      var w := Window(i - 1, |points|, isClosed);
      MatchStep(ContourFuncs(tree, actions, points, startPoint, isClosed, i - 1), WalkMatch(tree, ClassesOf(points, w)), w, startPoint, actions)
  }

  /** What `makeContourPointEditFuncs` returns, or the error it raises. */
  function ContourEditFuncs(p: PathValue, selected: seq<int>, startPoint: nat, endPoint: nat, isClosed: bool,
                            tree: MatchTree, actions: set<string>): (r: Result<(seq<EditFunc>, seq<int>), EditError>)
    requires |p.coordinates| == 2 * |p.pointTypes| && startPoint <= endPoint <= |p.pointTypes|
    ensures r.Err? <==> exists k :: 0 <= k < |selected| && !(startPoint <= selected[k] < endPoint)
    ensures r.Err? ==> r.error == TypeError
  {
    match MarkedPoints(p, selected, startPoint, endPoint)
    case Err(e) => Err(e)
    case Ok(points) =>
      var (transforms, constrains, participating) := ContourFuncs(tree, actions, points, startPoint, isClosed, |points|);
      Ok((transforms + constrains, participating))
  }

  /**
   * `makeContourPointEditFuncs`: loads the contour's points, marks the
   * selected ones in place, then matches every point and collects the
   * edit functions, transforms before constrains.
   */
  method MakeContourPointEditFuncs(p: PathValue, selected: seq<int>, startPoint: nat, endPoint: nat, isClosed: bool,
                                   tree: MatchTree, actions: set<string>)
    returns (r: Result<(seq<EditFunc>, seq<int>), EditError>)
    requires |p.coordinates| == 2 * |p.pointTypes| && startPoint <= endPoint <= |p.pointTypes|
    ensures r == ContourEditFuncs(p, selected, startPoint, endPoint, isClosed, tree, actions)
  {
    var points := MarkContourPoints(p, selected, startPoint, endPoint);
    if points.Err? {
      return Err(points.error);
    }
    var transforms, constrains, participating := MatchContourPoints(tree, actions, points.value, startPoint, isClosed);
    r := Ok((transforms + constrains, participating));
  }

  /** The first half of `makeContourPointEditFuncs`: the contour's points, the selected ones marked in place. */
  method MarkContourPoints(p: PathValue, selected: seq<int>, startPoint: nat, endPoint: nat)
    returns (r: Result<seq<MarkedPoint>, EditError>)
    requires |p.coordinates| == 2 * |p.pointTypes| && startPoint <= endPoint <= |p.pointTypes|
    ensures r == MarkedPoints(p, selected, startPoint, endPoint)
  {
    var numPoints := endPoint - startPoint;
    var contourPoints := new MarkedPoint[numPoints];
    for i := 0 to numPoints
      invariant forall j :: 0 <= j < i ==> contourPoints[j] == MarkedPoint(PathPoint(p, startPoint + j), false)
    {
      contourPoints[i] := MarkedPoint(PathPoint(p, i + startPoint), false);
    }
    for k := 0 to |selected|
      invariant forall k' :: 0 <= k' < k ==> startPoint <= selected[k'] < endPoint
      invariant forall j :: 0 <= j < numPoints ==>
                  contourPoints[j] == MarkedPoint(PathPoint(p, startPoint + j), startPoint + j in selected[..k])
    {
      var pointIndex := selected[k] - startPoint;
      if !(0 <= pointIndex < numPoints) {
        return Err(TypeError);
      }
      assert selected[..k + 1] == selected[..k] + [selected[k]];
      contourPoints[pointIndex] := contourPoints[pointIndex].(selected := true);
    }
    assert selected[..|selected|] == selected;
    assert forall k :: 0 <= k < |selected| ==> startPoint <= selected[k] < endPoint;
    r := Ok(contourPoints[..]);
    assert r.value == seq(numPoints, j requires 0 <= j < numPoints =>
      MarkedPoint(PathPoint(p, startPoint + j), startPoint + j in selected));
  }

  /** The second half of `makeContourPointEditFuncs`: the match of every point of the contour. */
  method MatchContourPoints(tree: MatchTree, actions: set<string>, points: seq<MarkedPoint>, startPoint: nat, isClosed: bool)
    returns (transforms: seq<EditFunc>, constrains: seq<EditFunc>, participating: seq<int>)
    ensures (transforms, constrains, participating) == ContourFuncs(tree, actions, points, startPoint, isClosed, |points|)
  {
    transforms, constrains, participating := [], [], [];
    for i := 0 to |points|
      invariant ContourFuncs(tree, actions, points, startPoint, isClosed, i) == (transforms, constrains, participating)
    {
      var m, neighborIndices := FindPointMatch(tree, i, points, isClosed);
      ghost var w := Window(i, |points|, isClosed);
      ContourFuncsUnfold(tree, actions, points, startPoint, isClosed, i);
      if m.Some? {
        assert neighborIndices == w by { assert w[..5] == w; }
        transforms, constrains, participating :=
          AddMatch(m.value, neighborIndices, startPoint, actions, transforms, constrains, participating);
      }
    }
  }

  lemma ContourFuncsUnfold(tree: MatchTree, actions: set<string>, points: seq<MarkedPoint>, startPoint: nat, isClosed: bool, i: nat)
    requires i < |points|
    ensures ContourFuncs(tree, actions, points, startPoint, isClosed, i + 1) ==
              MatchStep(ContourFuncs(tree, actions, points, startPoint, isClosed, i),
                        WalkMatch(tree, ClassesOf(points, Window(i, |points|, isClosed))), Window(i, |points|, isClosed), startPoint, actions)
  {
  }

  /** The body of the matching loop for a matched point. */
  method AddMatch(rule: MatchTree, neighborIndices: seq<int>, startPoint: nat, actions: set<string>,
                  transforms0: seq<EditFunc>, constrains0: seq<EditFunc>, participating0: seq<int>)
    returns (transforms: seq<EditFunc>, constrains: seq<EditFunc>, participating: seq<int>)
    requires |neighborIndices| == 5
    ensures (transforms, constrains, participating) ==
              MatchStep((transforms0, constrains0, participating0), Some(rule), neighborIndices, startPoint, actions)
  {
    transforms, constrains := transforms0, constrains0;
    var nb := if DirectionOf(rule) > 0 then neighborIndices else Reverse(neighborIndices);
    var thePoint := nb[2];
    participating := participating0 + [thePoint + startPoint];
    var action := ActionOf(rule);
    if action.None? || action.value !in actions {
      return;
    }
    if !ConstrainOf(rule) {
      transforms := transforms + [EditFunc(startPoint, thePoint, nb, action.value, false)];
    } else {
      constrains := constrains + [EditFunc(startPoint, thePoint, nb, action.value, true)];
    }
  }

  predicate StrictlyAscending(s: seq<int>) {
    forall a, b :: 0 <= a < b < |s| ==> s[a] < s[b]
  }

  /** The facts the matching loop keeps about what it has built. */
  predicate ContourFuncsFacts(transforms: seq<EditFunc>, constrains: seq<EditFunc>, participating: seq<int>,
                              startPoint: nat, numPoints: nat, i: nat)
  {
    && (forall f :: f in transforms ==> !f.constrain)
    && (forall f :: f in constrains ==> f.constrain)
    && (forall f :: f in transforms + constrains ==>
          f.startPoint == startPoint && 0 <= f.thePoint < i && |f.neighbors| == 5 && f.neighbors[2] == f.thePoint
          && f.thePoint + startPoint in participating)
    && StrictlyAscending(participating)
    && (forall k :: 0 <= k < |participating| ==> startPoint <= participating[k] < startPoint + i)
  }

  /** The middle neighbour is the point itself, in either reading direction. */
  lemma WindowMiddle(i: nat, numPoints: nat, isClosed: bool)
    requires i < numPoints
    ensures Window(i, numPoints, isClosed)[2] == i && Reverse(Window(i, numPoints, isClosed))[2] == i
  {
    if isClosed {
      ClosedNeighborWraps(i, 0, numPoints);
    }
  }

  /** One turn of the matching loop keeps its facts. */
  lemma MatchStepFacts(acc: (seq<EditFunc>, seq<EditFunc>, seq<int>), m: Option<MatchTree>, window: seq<int>,
                       startPoint: nat, actions: set<string>, numPoints: nat, i: nat)
    requires |window| == 5 && window[2] == i && Reverse(window)[2] == i
    requires ContourFuncsFacts(acc.0, acc.1, acc.2, startPoint, numPoints, i)
    ensures var r := MatchStep(acc, m, window, startPoint, actions);
            ContourFuncsFacts(r.0, r.1, r.2, startPoint, numPoints, i + 1)
  {
    var (transforms, constrains, participating) := acc;
    if m.Some? {
      var participating' := participating + [i + startPoint];
      assert StrictlyAscending(participating');
      assert forall f :: f in transforms + constrains ==> f.thePoint + startPoint in participating';
    }
  }

  /**
   * The matching loop makes transform funcs only of non-constraining
   * rules and constrain funcs only of constraining ones; each func edits
   * its own matched point, which is the middle of its neighbours and is
   * listed among the participating points; and the participating points
   * are absolute indices of the contour, ascending.
   */
  lemma {:induction false} ContourFuncsShape(tree: MatchTree, actions: set<string>, points: seq<MarkedPoint>,
                                             startPoint: nat, isClosed: bool, i: nat)
    requires i <= |points|
    ensures var r := ContourFuncs(tree, actions, points, startPoint, isClosed, i);
            ContourFuncsFacts(r.0, r.1, r.2, startPoint, |points|, i)
  {
    if i > 0 {
      ContourFuncsShape(tree, actions, points, startPoint, isClosed, i - 1);
      WindowMiddle(i - 1, |points|, isClosed);
      var w := Window(i - 1, |points|, isClosed);
      MatchStepFacts(ContourFuncs(tree, actions, points, startPoint, isClosed, i - 1), WalkMatch(tree, ClassesOf(points, w)),
                     w, startPoint, actions, |points|, i - 1);
    }
  }

  /** What the contour loop of `makePointEditFuncs` has built after the first `c` contours, or the error raised on the way. */
  function PointFuncsUpTo(p: PathValue, selection: seq<Option<seq<int>>>, tree: MatchTree, actions: set<string>, c: nat)
    : (r: Result<(seq<EditFunc>, seq<int>), EditError>)
    requires Wf(p) && |selection| == |p.contourInfo| && c <= |p.contourInfo|
    ensures r.Err? ==> r.error == TypeError
  {
    if c == 0 then Ok(([], []))
    else
      match PointFuncsUpTo(p, selection, tree, actions, c - 1)
      case Err(e) => Err(e)
      case Ok((funcs, participating)) =>
        if selection[c - 1].None? then Ok((funcs, participating))
        else
          ContourBounds(p, c - 1);
          match ContourEditFuncs(p, selection[c - 1].value, ContourStart(p.contourInfo, c - 1), p.contourInfo[c - 1].endPoint + 1,
                                 p.contourInfo[c - 1].isClosed, tree, actions)
          case Err(e) => Err(e)
          case Ok((funcs', participating')) => Ok((funcs + funcs', participating + participating'))
  }

  /** What `makePointEditFuncs` returns, or the error it raises. */
  function PointEditFuncs(p: PathValue, selection: seq<Option<seq<int>>>, tree: MatchTree, actions: set<string>)
    : (r: Result<(seq<EditFunc>, seq<int>), EditError>)
    requires Wf(p)
    ensures |selection| != |p.contourInfo| <==> r == Err(ContourArraysLengthMismatch)
  {
    if |selection| != |p.contourInfo| then Err(ContourArraysLengthMismatch)
    else PointFuncsUpTo(p, selection, tree, actions, |p.contourInfo|)
  }

  lemma {:induction false} PointFuncsErrorSticks(p: PathValue, selection: seq<Option<seq<int>>>, tree: MatchTree, actions: set<string>, c: nat)
    requires Wf(p) && |selection| == |p.contourInfo| && c <= |p.contourInfo|
    requires PointFuncsUpTo(p, selection, tree, actions, c).Err?
    ensures PointFuncsUpTo(p, selection, tree, actions, |p.contourInfo|) == Err(TypeError)
    decreases |p.contourInfo| - c
  {
    if c < |p.contourInfo| {
      PointFuncsErrorSticks(p, selection, tree, actions, c + 1);
    }
  }

  /** One contour of the loop in `makePointEditFuncs`, with the contour's start and end passed in. */
  lemma PointFuncsStep(p: PathValue, selection: seq<Option<seq<int>>>, tree: MatchTree, actions: set<string>, i: nat, s: nat, e: int)
    requires Wf(p) && |selection| == |p.contourInfo| && i < |p.contourInfo|
    requires s == ContourStart(p.contourInfo, i) && e == p.contourInfo[i].endPoint + 1
    requires PointFuncsUpTo(p, selection, tree, actions, i).Ok?
    ensures s <= e <= |p.pointTypes|
    ensures var acc := PointFuncsUpTo(p, selection, tree, actions, i).value;
            PointFuncsUpTo(p, selection, tree, actions, i + 1) ==
              if selection[i].None? then Ok(acc)
              else match ContourEditFuncs(p, selection[i].value, s, e, p.contourInfo[i].isClosed, tree, actions)
                   case Err(err) => Err(err)
                   case Ok(r) => Ok((acc.0 + r.0, acc.1 + r.1))
  {
    ContourBounds(p, i);
  }

  /**
   * `makePointEditFuncs`: checks that there is one selection entry per
   * contour, then collects the edit funcs and participating points of
   * every contour with a selection, each contour starting one past the
   * previous one's end point.
   */
  method MakePointEditFuncs(p: PathValue, selection: seq<Option<seq<int>>>, tree: MatchTree, actions: set<string>)
    returns (r: Result<(seq<EditFunc>, seq<int>), EditError>)
    requires Wf(p)
    ensures r == PointEditFuncs(p, selection, tree, actions)
  {
    if |selection| != |p.contourInfo| {
      return Err(ContourArraysLengthMismatch);
    }
    var contourStartPoint := 0;
    var pointEditFuncs: seq<EditFunc> := [];
    var participating: seq<int> := [];
    for i := 0 to |p.contourInfo|
      invariant contourStartPoint == ContourStart(p.contourInfo, i)
      invariant PointFuncsUpTo(p, selection, tree, actions, i) == Ok((pointEditFuncs, participating))
    {
      var contourEndPoint := p.contourInfo[i].endPoint + 1;
      PointFuncsStep(p, selection, tree, actions, i, contourStartPoint, contourEndPoint);
      if selection[i].Some? {
        var contourResult := MakeContourPointEditFuncs(p, selection[i].value, contourStartPoint, contourEndPoint,
                                                       p.contourInfo[i].isClosed, tree, actions);
        if contourResult.Err? {
          PointFuncsErrorSticks(p, selection, tree, actions, i + 1);
          return Err(contourResult.error);
        }
        pointEditFuncs := pointEditFuncs + contourResult.value.0;
        participating := participating + contourResult.value.1;
      }
      contourStartPoint := contourEndPoint;
    }
    r := Ok((pointEditFuncs, participating));
  }

  /**
   * `makeContourPointEditFuncs` succeeds exactly when every selected
   * index lies in the contour; then all transform funcs come before all
   * constrain funcs, each func edits a participating point of the
   * contour that is the middle of its neighbours, and the participating
   * points are the contour's matched points, ascending.
   */
  lemma ContourEditFuncsOrdered(p: PathValue, selected: seq<int>, startPoint: nat, endPoint: nat, isClosed: bool,
                                tree: MatchTree, actions: set<string>)
    requires |p.coordinates| == 2 * |p.pointTypes| && startPoint <= endPoint <= |p.pointTypes|
    ensures var r := ContourEditFuncs(p, selected, startPoint, endPoint, isClosed, tree, actions);
            r.Ok? ==>
              && (forall a, b :: 0 <= a < b < |r.value.0| && r.value.0[a].constrain ==> r.value.0[b].constrain)
              && (forall f :: f in r.value.0 ==>
                    f.startPoint == startPoint && |f.neighbors| == 5 && f.neighbors[2] == f.thePoint
                    && f.thePoint + startPoint in r.value.1)
              && StrictlyAscending(r.value.1)
              && (forall k :: 0 <= k < |r.value.1| ==> startPoint <= r.value.1[k] < endPoint)
  {
    var r := ContourEditFuncs(p, selected, startPoint, endPoint, isClosed, tree, actions);
    if r.Ok? {
      var points := MarkedPoints(p, selected, startPoint, endPoint).value;
      ContourFuncsShape(tree, actions, points, startPoint, isClosed, |points|);
      var (transforms, constrains, participating) := ContourFuncs(tree, actions, points, startPoint, isClosed, |points|);
      assert r.value.0 == transforms + constrains;
      forall a, b | 0 <= a < b < |r.value.0| && r.value.0[a].constrain
        ensures r.value.0[b].constrain
      {
        assert r.value.0[b] == constrains[b - |transforms|];
        assert r.value.0[b] in constrains;
      }
    }
  }

  /** Two ascending runs separated by a bound make one ascending run. */
  lemma ConcatAscending(a: seq<int>, b: seq<int>, bound: int)
    requires StrictlyAscending(a) && StrictlyAscending(b)
    requires forall k :: 0 <= k < |a| ==> a[k] < bound
    requires forall k :: 0 <= k < |b| ==> bound <= b[k]
    ensures StrictlyAscending(a + b)
  {
  }

  /** The facts about built edit funcs and participating points, below `bound`. */
  predicate FuncsFacts(r: Result<(seq<EditFunc>, seq<int>), EditError>, bound: int) {
    r.Ok? ==>
      && StrictlyAscending(r.value.1)
      && (forall k :: 0 <= k < |r.value.1| ==> 0 <= r.value.1[k] < bound)
      && (forall f :: f in r.value.0 ==> f.startPoint + f.thePoint in r.value.1)
  }

  /** Appending a contour's funcs, all at or past `s` and below `bound`, keeps the facts. */
  lemma FuncsFactsAppend(acc: (seq<EditFunc>, seq<int>), r: (seq<EditFunc>, seq<int>), s: nat, bound: int)
    requires FuncsFacts(Ok(acc), s) && s <= bound
    requires StrictlyAscending(r.1) && (forall k :: 0 <= k < |r.1| ==> s <= r.1[k] < bound)
    requires forall f :: f in r.0 ==> f.startPoint == s && f.thePoint + s in r.1
    ensures FuncsFacts(Ok((acc.0 + r.0, acc.1 + r.1)), bound)
  {
    ConcatAscending(acc.1, r.1, s);
  }

  /**
   * After the first `c` contours the participating points are ascending
   * absolute indices before the start of contour `c`, and every edit
   * func's absolute point is among them.
   */
  lemma {:induction false} PointFuncsShape(p: PathValue, selection: seq<Option<seq<int>>>, tree: MatchTree, actions: set<string>, c: nat)
    requires Wf(p) && |selection| == |p.contourInfo| && c <= |p.contourInfo|
    ensures FuncsFacts(PointFuncsUpTo(p, selection, tree, actions, c), ContourStart(p.contourInfo, c))
  {
    if c > 0 {
      PointFuncsShape(p, selection, tree, actions, c - 1);
      var prev := PointFuncsUpTo(p, selection, tree, actions, c - 1);
      var s := ContourStart(p.contourInfo, c - 1);
      ContourStartMonotone(p.contourInfo, c - 1, c);
      if prev.Ok? {
        var e := p.contourInfo[c - 1].endPoint + 1;
        PointFuncsStep(p, selection, tree, actions, c - 1, s, e);
        if selection[c - 1].Some? {
          var r := ContourEditFuncs(p, selection[c - 1].value, s, e, p.contourInfo[c - 1].isClosed, tree, actions);
          if r.Ok? {
            ContourEditFuncsOrdered(p, selection[c - 1].value, s, e, p.contourInfo[c - 1].isClosed, tree, actions);
            FuncsFactsAppend(prev.value, r.value, s, ContourStart(p.contourInfo, c));
          }
        }
      }
    }
  }

  /** The edit funcs of a path: the participating points are ascending indices of the path, covering every func's point. */
  lemma PointEditFuncsShape(p: PathValue, selection: seq<Option<seq<int>>>, tree: MatchTree, actions: set<string>)
    requires Wf(p)
    ensures var r := PointEditFuncs(p, selection, tree, actions);
            r.Ok? ==>
              && StrictlyAscending(r.value.1)
              && (forall k :: 0 <= k < |r.value.1| ==> 0 <= r.value.1[k] < |p.pointTypes|)
              && (forall f :: f in r.value.0 ==> f.startPoint + f.thePoint in r.value.1)
  {
    if |selection| == |p.contourInfo| {
      PointFuncsShape(p, selection, tree, actions, |p.contourInfo|);
      assert FuncsFacts(PointEditFuncs(p, selection, tree, actions), |p.pointTypes|);
    }
  }

  /** Every index `InContour` keeps lies in the contour. */
  lemma {:induction false} InContourInRange(ci: seq<ContourInfo>, c: nat, indices: seq<int>)
    requires c < |ci|
    ensures forall x :: x in InContour(ci, c, indices) ==> ContourStart(ci, c) <= x <= ci[c].endPoint
  {
    if |indices| > 0 {
      InContourInRange(ci, c, indices[..|indices| - 1]);
    }
  }

  /** Each entry of the selection lists only points of its own contour. */
  predicate EntriesInContours(p: PathValue, selection: seq<Option<seq<int>>>)
    requires Wf(p) && |selection| == |p.contourInfo|
  {
    forall c :: 0 <= c < |selection| && selection[c].Some? ==>
      forall k :: 0 <= k < |selection[c].value| ==>
        ContourStart(p.contourInfo, c) <= selection[c].value[k] <= p.contourInfo[c].endPoint
  }

  /** A selection whose entries stay in their contours raises nothing. */
  lemma {:induction false} PointFuncsOk(p: PathValue, selection: seq<Option<seq<int>>>, tree: MatchTree, actions: set<string>, c: nat)
    requires Wf(p) && |selection| == |p.contourInfo| && c <= |p.contourInfo|
    requires EntriesInContours(p, selection)
    ensures PointFuncsUpTo(p, selection, tree, actions, c).Ok?
  {
    if c > 0 {
      PointFuncsOk(p, selection, tree, actions, c - 1);
      PointFuncsStep(p, selection, tree, actions, c - 1, ContourStart(p.contourInfo, c - 1), p.contourInfo[c - 1].endPoint + 1);
    }
  }

  /**
   * The edit behaviour of a path: on the point selection split by
   * contour from sorted point indices of the path, `makePointEditFuncs`
   * raises nothing.
   */
  lemma EditFuncsOfSplitSelection(p: PathValue, indices: seq<int>, tree: MatchTree, actions: set<string>)
    requires Wf(p) && SortedIndices(indices)
    requires forall k :: 0 <= k < |indices| ==> 0 <= indices[k] < |p.pointTypes|
    ensures SplitResult(p.contourInfo, indices).Ok?
    ensures PointEditFuncs(p, SplitResult(p.contourInfo, indices).value, tree, actions).Ok?
  {
    SplitByContourIsFilter(p, indices);
    var selection := SplitResult(p.contourInfo, indices).value;
    forall c | 0 <= c < |selection| && selection[c].Some?
      ensures forall k :: 0 <= k < |selection[c].value| ==>
                ContourStart(p.contourInfo, c) <= selection[c].value[k] <= p.contourInfo[c].endPoint
    {
      InContourInRange(p.contourInfo, c, indices);
      assert forall k :: 0 <= k < |selection[c].value| ==> selection[c].value[k] in InContour(p.contourInfo, c, indices);
    }
    PointFuncsOk(p, selection, tree, actions, |p.contourInfo|);
  }

  //
  // Changes: the change a drag produces and its rollback
  //

  datatype Vec = Vec(x: real, y: real)

  /** A key on a change path: an array index or a property name. */
  datatype Key = Int(i: int) | Str(s: string)

  /**
   * The change objects built here: `{"f": "=xy", "k": k, "a": [x, y]}`,
   * `{"f": "=", "k": k, "v": v}` and a group `{"p": path, "c": changes}`.
   */
  datatype Change =
    | SetPoint(k: int, x: real, y: real)
    | SetField(field: string, v: real)
    | Group(path: seq<Key>, changes: seq<Change>)

  /** `makePointChange`. */
  function PointChange(pointIndex: int, pt: Vec): (c: Change)
    ensures c.SetPoint? && c.k == pointIndex && c.x == pt.x && c.y == pt.y
  {
    SetPoint(pointIndex, pt.x, pt.y)
  }

  /** `makeComponentOriginChange`: sets `x` and `y` under `[componentIndex, "transformation"]`. */
  function ComponentOriginChange(componentIndex: int, origin: Vec): (c: Change)
    ensures c.Group? && c.path == [Int(componentIndex), Str("transformation")]
    ensures c.changes == [SetField("x", origin.x), SetField("y", origin.y)]
  {
    Group([Int(componentIndex), Str("transformation")], [SetField("x", origin.x), SetField("y", origin.y)])
  }

  /** The glyph instance a change acts on: the path and each component's origin. */
  datatype Instance = Instance(path: PathValue, origins: seq<Vec>)

  /** The position of path point `k`. */
  function PositionOf(p: PathValue, k: nat): Vec
    requires 2 * k + 1 < |p.coordinates|
  {
    Vec(p.coordinates[2 * k], p.coordinates[2 * k + 1])
  }

  /** The coordinates with point `k` moved to `(x, y)`. */
  function SetXY(coordinates: seq<real>, k: int, x: real, y: real): (r: seq<real>)
    ensures |r| == |coordinates|
    ensures forall m :: 0 <= m < |r| && m != 2 * k && m != 2 * k + 1 ==> r[m] == coordinates[m]
    ensures 0 <= k && 2 * k + 1 < |coordinates| ==> r[2 * k] == x && r[2 * k + 1] == y
  {
    if 0 <= k && 2 * k + 1 < |coordinates| then coordinates[2 * k := x][2 * k + 1 := y] else coordinates
  }

  /**
   * Applying a change at the path `at`: a point change under `["path"]`
   * moves a point, a field change under `["components", i,
   * "transformation"]` sets a coordinate of that component's origin, a
   * group applies its changes in order under its own path; anything else
   * leaves the instance as it is.
   */
  function Apply(g: Instance, at: seq<Key>, c: Change): Instance
    decreases c
  {
    match c
    case SetPoint(k, x, y) =>
      if at == [Str("path")] then g.(path := g.path.(coordinates := SetXY(g.path.coordinates, k, x, y))) else g
    case SetField(field, v) =>
      if |at| == 3 && at[0] == Str("components") && at[1].Int? && 0 <= at[1].i < |g.origins| && at[2] == Str("transformation") then
        var o := g.origins[at[1].i];
        if field == "x" then g.(origins := g.origins[at[1].i := o.(x := v)])
        else if field == "y" then g.(origins := g.origins[at[1].i := o.(y := v)])
        else g
      else g
    case Group(path, changes) => ApplyAll(g, at + path, changes)
  }

  function ApplyAll(g: Instance, at: seq<Key>, changes: seq<Change>): Instance
    decreases changes
  {
    if |changes| == 0 then g else ApplyAll(Apply(g, at, changes[0]), at, changes[1..])
  }

  /**
   * `makeRollbackChange`: the pre-edit position of every participating
   * point under `["path"]` and the pre-edit origin of every selected
   * component under `["components"]`; both groups are always present.
   */
  function RollbackChange(g: Instance, pointSelection: seq<int>, componentSelection: seq<int>): (c: Change)
    requires forall k :: 0 <= k < |pointSelection| ==> 0 <= pointSelection[k] && 2 * pointSelection[k] + 1 < |g.path.coordinates|
    requires forall k :: 0 <= k < |componentSelection| ==> 0 <= componentSelection[k] < |g.origins|
    ensures c.Group? && c.path == [] && |c.changes| == 2
    ensures c.changes[0].Group? && c.changes[0].path == [Str("path")] && |c.changes[0].changes| == |pointSelection|
    ensures c.changes[1].Group? && c.changes[1].path == [Str("components")] && |c.changes[1].changes| == |componentSelection|
  {
    Group([], [
      Group([Str("path")], seq(|pointSelection|, k requires 0 <= k < |pointSelection| =>
        PointChange(pointSelection[k], PositionOf(g.path, pointSelection[k])))),
      Group([Str("components")], seq(|componentSelection|, k requires 0 <= k < |componentSelection| =>
        ComponentOriginChange(componentSelection[k], g.origins[componentSelection[k]])))])
  }

  /**
   * Where an action puts its point. "Move" transforms the point and
   * "DontMove" keeps it; the other actions compute angles and
   * intersections in floating point, which `geometry` stands for.
   */
  function ActionPoint(f: EditFunc, points: seq<Vec>, transform: Vec -> Vec, geometry: (EditFunc, seq<Vec>, Vec -> Vec) -> Vec): (pt: Vec)
    requires 0 <= f.startPoint + f.thePoint < |points|
    ensures f.action == "Move" ==> pt == transform(points[f.startPoint + f.thePoint])
    ensures f.action == "DontMove" ==> pt == points[f.startPoint + f.thePoint]
  {
    var k := f.startPoint + f.thePoint;
    if f.action == "Move" then transform(points[k])
    else if f.action == "DontMove" then points[k]
    else geometry(f, points, transform)
  }

  predicate FuncsInPath(funcs: seq<EditFunc>, numPoints: nat) {
    forall j :: 0 <= j < |funcs| ==> 0 <= funcs[j].startPoint + funcs[j].thePoint < numPoints
  }

  /**
   * Calling the edit funcs in order: a transform func computes its point
   * from the original points and records it in the edit points; a
   * constrain func computes its point from the edit points. Each call
   * yields the point change of its point.
   */
  function RunEditFuncs(funcs: seq<EditFunc>, transform: Vec -> Vec, originals: seq<Vec>, editPoints: seq<Vec>,
                        geometry: (EditFunc, seq<Vec>, Vec -> Vec) -> Vec): (r: seq<Change>)
    requires |editPoints| == |originals| && FuncsInPath(funcs, |originals|)
    ensures |r| == |funcs|
    ensures forall j :: 0 <= j < |r| ==> r[j].SetPoint? && r[j].k == funcs[j].startPoint + funcs[j].thePoint
    ensures forall j :: 0 <= j < |r| && !funcs[j].constrain ==>
              r[j] == PointChange(funcs[j].startPoint + funcs[j].thePoint, ActionPoint(funcs[j], originals, transform, geometry))
    decreases |funcs|
  {
    if |funcs| == 0 then []
    else
      var f := funcs[0];
      var k := f.startPoint + f.thePoint;
      var pt := ActionPoint(f, if f.constrain then editPoints else originals, transform, geometry);
      [PointChange(k, pt)] + RunEditFuncs(funcs[1..], transform, originals, if f.constrain then editPoints else editPoints[k := pt], geometry)
  }

  /** The positions of all points of the path. */
  function Positions(p: PathValue): (r: seq<Vec>)
    requires |p.coordinates| == 2 * |p.pointTypes|
    ensures |r| == |p.pointTypes|
  {
    seq(|p.pointTypes|, k requires 0 <= k < |p.pointTypes| => PositionOf(p, k))
  }

  /** A behaviour type of `behaviorTypes`: its match tree, its actions and its optional delta constraint. */
  datatype BehaviorType = BehaviorType(matchTree: MatchTree, actions: set<string>, constrainDelta: Option<Vec -> Vec>)

  /** An `EditBehavior` as its constructor leaves it. */
  datatype EditBehaviorValue = EditBehaviorValue(
    constrainDelta: Vec -> Vec,
    pointEditFuncs: seq<EditFunc>,
    originals: seq<Vec>,
    componentSelection: seq<int>,
    componentOrigins: seq<Vec>,
    rollbackChange: Change)

  /**
   * The `EditBehavior` constructor: the point edit funcs of the selection,
   * the origins of the selected components, and the rollback of the
   * participating points and selected components; or the error raised on
   * the way (a selected component that does not exist raises a
   * `TypeError`).
   */
  function NewEditBehavior(g: Instance, pointSelectionByContour: seq<Option<seq<int>>>, componentSelection: seq<int>,
                           behavior: BehaviorType): (r: Result<EditBehaviorValue, EditError>)
    requires Wf(g.path)
    ensures r.Ok? ==> FuncsInPath(r.value.pointEditFuncs, |r.value.originals|)
                      && |r.value.componentOrigins| == |componentSelection| == |r.value.componentSelection|
                      && r.value.originals == Positions(g.path)
  {
    match PointEditFuncs(g.path, pointSelectionByContour, behavior.matchTree, behavior.actions)
    case Err(e) => Err(e)
    case Ok((funcs, participating)) =>
      if exists k :: 0 <= k < |componentSelection| && !(0 <= componentSelection[k] < |g.origins|) then Err(TypeError)
      else
        PointEditFuncsShape(g.path, pointSelectionByContour, behavior.matchTree, behavior.actions);
        assert forall j :: 0 <= j < |funcs| ==> funcs[j] in funcs;
        Ok(EditBehaviorValue(
          if behavior.constrainDelta.Some? then behavior.constrainDelta.value else v => v,
          funcs,
          Positions(g.path),
          componentSelection,
          seq(|componentSelection|, k requires 0 <= k < |componentSelection| => g.origins[componentSelection[k]]),
          RollbackChange(g, participating, componentSelection)))
  }

  /** The point changes of a transform: one per edit func, in order. */
  function PathChanges(b: EditBehaviorValue, transform: Vec -> Vec, geometry: (EditFunc, seq<Vec>, Vec -> Vec) -> Vec): seq<Change>
    requires FuncsInPath(b.pointEditFuncs, |b.originals|)
  {
    RunEditFuncs(b.pointEditFuncs, transform, b.originals, b.originals, geometry)
  }

  /** The component changes of a transform: each selected component's origin, transformed. */
  function ComponentChanges(b: EditBehaviorValue, transform: Vec -> Vec): (r: seq<Change>)
    requires |b.componentOrigins| == |b.componentSelection|
    ensures |r| == |b.componentSelection|
  {
    seq(|b.componentSelection|, k requires 0 <= k < |b.componentSelection| =>
      ComponentOriginChange(b.componentSelection[k], transform(b.componentOrigins[k])))
  }

  /** `makeChangeForTransformFunc`: the point group and the component group, each only when it is not empty. */
  function ChangeForTransform(b: EditBehaviorValue, transform: Vec -> Vec, geometry: (EditFunc, seq<Vec>, Vec -> Vec) -> Vec): (c: Change)
    requires FuncsInPath(b.pointEditFuncs, |b.originals|) && |b.componentOrigins| == |b.componentSelection|
    ensures c.Group? && c.path == []
    ensures |c.changes| == (if |b.pointEditFuncs| > 0 then 1 else 0) + (if |b.componentSelection| > 0 then 1 else 0)
  {
    var pathChanges := PathChanges(b, transform, geometry);
    var componentChanges := ComponentChanges(b, transform);
    Group([], (if |pathChanges| > 0 then [Group([Str("path")], pathChanges)] else [])
              + (if |componentChanges| > 0 then [Group([Str("components")], componentChanges)] else []))
  }

  /** The translation by `d`. */
  function Translate(d: Vec): Vec -> Vec {
    (pt: Vec) => Vec(pt.x + d.x, pt.y + d.y)
  }

  /** `makeChangeForDelta`: constrain the delta, then translate by it. */
  function ChangeForDelta(b: EditBehaviorValue, delta: Vec, geometry: (EditFunc, seq<Vec>, Vec -> Vec) -> Vec): Change
    requires FuncsInPath(b.pointEditFuncs, |b.originals|) && |b.componentOrigins| == |b.componentSelection|
  {
    ChangeForTransform(b, Translate(b.constrainDelta(delta)), geometry)
  }

  /**
   * A drag by `delta` moves the point of a transform func with action
   * "Move" by the constrained delta, leaves that of a "DontMove" func at
   * its original position, and moves each selected component's origin by
   * the constrained delta; without a delta constraint the delta is used
   * as given.
   */
  lemma ChangeForDeltaMoves(g: Instance, selection: seq<Option<seq<int>>>, componentSelection: seq<int>, behavior: BehaviorType,
                            delta: Vec, geometry: (EditFunc, seq<Vec>, Vec -> Vec) -> Vec, j: nat)
    requires Wf(g.path) && NewEditBehavior(g, selection, componentSelection, behavior).Ok?
    ensures var b := NewEditBehavior(g, selection, componentSelection, behavior).value;
            var d := b.constrainDelta(delta);
            && (behavior.constrainDelta.None? ==> d == delta)
            && (j < |b.pointEditFuncs| && !b.pointEditFuncs[j].constrain ==>
                  var f := b.pointEditFuncs[j];
                  var k := f.startPoint + f.thePoint;
                  var o := PositionOf(g.path, k);
                  && (f.action == "Move" ==> PathChanges(b, Translate(d), geometry)[j] == SetPoint(k, o.x + d.x, o.y + d.y))
                  && (f.action == "DontMove" ==> PathChanges(b, Translate(d), geometry)[j] == SetPoint(k, o.x, o.y)))
            && (j < |componentSelection| ==>
                  var o := g.origins[componentSelection[j]];
                  ComponentChanges(b, Translate(d))[j] == ComponentOriginChange(componentSelection[j], Vec(o.x + d.x, o.y + d.y)))
  {
    var b := NewEditBehavior(g, selection, componentSelection, behavior).value;
    var d := b.constrainDelta(delta);
  }

  //
  // Rolling a drag back
  //

  /** The coordinates after the point changes `changes`, in order. */
  function SetAllXY(coordinates: seq<real>, changes: seq<Change>): (r: seq<real>)
    ensures |r| == |coordinates|
    decreases |changes|
  {
    if |changes| == 0 then coordinates
    else
      var c := changes[0];
      SetAllXY(if c.SetPoint? then SetXY(coordinates, c.k, c.x, c.y) else coordinates, changes[1..])
  }

  /** The points the point changes write. */
  function PointKeys(changes: seq<Change>): set<int>
    decreases |changes|
  {
    if |changes| == 0 then {} else (if changes[0].SetPoint? then {changes[0].k} else {}) + PointKeys(changes[1..])
  }

  /** A coordinate of a point no change writes keeps its value. */
  lemma {:induction false} SetAllXYUntouched(coordinates: seq<real>, changes: seq<Change>, m: nat)
    requires m < |coordinates| && m / 2 !in PointKeys(changes)
    ensures SetAllXY(coordinates, changes)[m] == coordinates[m]
    decreases |changes|
  {
    if |changes| > 0 {
      var c := changes[0];
      SetAllXYUntouched(if c.SetPoint? then SetXY(coordinates, c.k, c.x, c.y) else coordinates, changes[1..], m);
    }
  }

  /** Point changes that all put points back where they are in `original`. */
  predicate RestoresTo(changes: seq<Change>, original: seq<real>) {
    forall j :: 0 <= j < |changes| ==>
      changes[j].SetPoint? && 0 <= changes[j].k && 2 * changes[j].k + 1 < |original|
      && changes[j].x == original[2 * changes[j].k] && changes[j].y == original[2 * changes[j].k + 1]
  }

  /** Changes that put points back where they were restore every point they write. */
  lemma {:induction false} SetAllXYRestores(coordinates: seq<real>, changes: seq<Change>, original: seq<real>, m: nat)
    requires |coordinates| == |original| && m < |coordinates| && RestoresTo(changes, original)
    ensures SetAllXY(coordinates, changes)[m] == if m / 2 in PointKeys(changes) then original[m] else coordinates[m]
    decreases |changes|
  {
    if |changes| > 0 {
      var c := changes[0];
      assert RestoresTo(changes[1..], original) by {
        forall j | 0 <= j < |changes| - 1 ensures changes[1..][j] == changes[j + 1] { }
      }
      SetAllXYRestores(SetXY(coordinates, c.k, c.x, c.y), changes[1..], original, m);
    }
  }

  /** The origins after the origin changes `changes`, in order. */
  function SetAllOrigins(origins: seq<Vec>, changes: seq<Change>): (r: seq<Vec>)
    ensures |r| == |origins|
    decreases |changes|
  {
    if |changes| == 0 then origins
    else
      var c := changes[0];
      SetAllOrigins(if IsOriginChange(c) && 0 <= c.path[0].i < |origins| then origins[c.path[0].i := OriginOf(c)] else origins, changes[1..])
  }

  predicate IsOriginChange(c: Change) {
    c.Group? && |c.path| == 2 && c.path[0].Int? && c.path[1] == Str("transformation")
    && |c.changes| == 2 && c.changes[0].SetField? && c.changes[0].field == "x" && c.changes[1].SetField? && c.changes[1].field == "y"
  }

  function OriginOf(c: Change): Vec
    requires IsOriginChange(c)
  {
    Vec(c.changes[0].v, c.changes[1].v)
  }

  function OriginKeys(changes: seq<Change>): set<int>
    decreases |changes|
  {
    if |changes| == 0 then {} else (if IsOriginChange(changes[0]) then {changes[0].path[0].i} else {}) + OriginKeys(changes[1..])
  }

  lemma {:induction false} SetAllOriginsUntouched(origins: seq<Vec>, changes: seq<Change>, m: nat)
    requires m < |origins| && m !in OriginKeys(changes)
    ensures SetAllOrigins(origins, changes)[m] == origins[m]
    decreases |changes|
  {
    if |changes| > 0 {
      var c := changes[0];
      SetAllOriginsUntouched(if IsOriginChange(c) && 0 <= c.path[0].i < |origins| then origins[c.path[0].i := OriginOf(c)] else origins,
                             changes[1..], m);
    }
  }

  predicate RestoresOrigins(changes: seq<Change>, original: seq<Vec>) {
    forall j :: 0 <= j < |changes| ==>
      IsOriginChange(changes[j]) && 0 <= changes[j].path[0].i < |original| && OriginOf(changes[j]) == original[changes[j].path[0].i]
  }

  lemma {:induction false} SetAllOriginsRestores(origins: seq<Vec>, changes: seq<Change>, original: seq<Vec>, m: nat)
    requires |origins| == |original| && m < |origins| && RestoresOrigins(changes, original)
    ensures SetAllOrigins(origins, changes)[m] == if m in OriginKeys(changes) then original[m] else origins[m]
    decreases |changes|
  {
    if |changes| > 0 {
      var c := changes[0];
      assert RestoresOrigins(changes[1..], original) by {
        forall j | 0 <= j < |changes| - 1 ensures changes[1..][j] == changes[j + 1] { }
      }
      SetAllOriginsRestores(origins[c.path[0].i := OriginOf(c)], changes[1..], original, m);
    }
  }

  /** A group of point changes under `["path"]` moves the points and nothing else. */
  lemma {:induction false} PathGroupEffect(g: Instance, changes: seq<Change>)
    requires forall j :: 0 <= j < |changes| ==> changes[j].SetPoint?
    ensures ApplyAll(g, [Str("path")], changes) == g.(path := g.path.(coordinates := SetAllXY(g.path.coordinates, changes)))
    decreases |changes|
  {
    if |changes| > 0 {
      var c := changes[0];
      PathGroupEffect(Apply(g, [Str("path")], c), changes[1..]);
    }
  }

  /** A group of origin changes under `["components"]` moves the origins and nothing else. */
  lemma {:induction false} ComponentGroupEffect(g: Instance, changes: seq<Change>)
    requires forall j :: 0 <= j < |changes| ==> IsOriginChange(changes[j])
    ensures ApplyAll(g, [Str("components")], changes) == g.(origins := SetAllOrigins(g.origins, changes))
    decreases |changes|
  {
    if |changes| > 0 {
      var c := changes[0];
      var at := [Str("components")] + c.path;
      var i := c.path[0].i;
      var g1 := Apply(g, at, c.changes[0]);
      assert Apply(g, [Str("components")], c) == ApplyAll(g1, at, c.changes[1..]);
      assert c.changes[1..] == [c.changes[1]];
      if 0 <= i < |g.origins| {
        assert Apply(g, [Str("components")], c) == g.(origins := g.origins[i := OriginOf(c)]);
      } else {
        assert Apply(g, [Str("components")], c) == g;
      }
      ComponentGroupEffect(Apply(g, [Str("components")], c), changes[1..]);
    }
  }

  /** A change made of a path group and a component group, either of which may be left out. */
  lemma TwoGroupsEffect(g: Instance, pathChanges: seq<Change>, componentChanges: seq<Change>, withPath: bool, withComponents: bool)
    requires forall j :: 0 <= j < |pathChanges| ==> pathChanges[j].SetPoint?
    requires forall j :: 0 <= j < |componentChanges| ==> IsOriginChange(componentChanges[j])
    requires !withPath ==> pathChanges == [] 
    requires !withComponents ==> componentChanges == []
    ensures Apply(g, [], Group([], (if withPath then [Group([Str("path")], pathChanges)] else [])
                                   + (if withComponents then [Group([Str("components")], componentChanges)] else [])))
            == Instance(g.path.(coordinates := SetAllXY(g.path.coordinates, pathChanges)), SetAllOrigins(g.origins, componentChanges))
  {
    var groups := (if withPath then [Group([Str("path")], pathChanges)] else [])
                  + (if withComponents then [Group([Str("components")], componentChanges)] else []);
    var root: seq<Key> := [];
    assert Apply(g, root, Group(root, groups)) == ApplyAll(g, root, groups) by { assert root + root == root; }
    var p := Group([Str("path")], pathChanges);
    var c := Group([Str("components")], componentChanges);
    assert Apply(g, [], p) == ApplyAll(g, [Str("path")], pathChanges) by { assert [] + [Str("path")] == [Str("path")]; }
    PathGroupEffect(g, pathChanges);
    var g1 := ApplyAll(g, [Str("path")], pathChanges);
    assert Apply(g1, [], c) == ApplyAll(g1, [Str("components")], componentChanges) by { assert [] + [Str("components")] == [Str("components")]; }
    assert Apply(g, [], c) == ApplyAll(g, [Str("components")], componentChanges) by { assert [] + [Str("components")] == [Str("components")]; }
    ComponentGroupEffect(g1, componentChanges);
    ComponentGroupEffect(g, componentChanges);
    if withPath && withComponents {
      assert groups == [p, c];
      ApplyTwo(g, [], p, c);
    } else if withPath {
      assert groups == [p];
      ApplyOne(g, [], p);
    } else if withComponents {
      assert groups == [c];
      ApplyOne(g, [], c);
    } else {
      assert groups == [];
    }
  }

  lemma ApplyOne(g: Instance, at: seq<Key>, a: Change)
    ensures ApplyAll(g, at, [a]) == Apply(g, at, a)
  {
    assert [a][1..] == [];
  }

  lemma ApplyTwo(g: Instance, at: seq<Key>, a: Change, b: Change)
    ensures ApplyAll(g, at, [a, b]) == Apply(Apply(g, at, a), at, b)
  {
    assert [a, b][1..] == [b];
    ApplyOne(Apply(g, at, a), at, b);
  }

  lemma {:induction false} PointKeysAre(changes: seq<Change>, x: int)
    ensures x in PointKeys(changes) <==> exists j :: 0 <= j < |changes| && changes[j].SetPoint? && changes[j].k == x
    decreases |changes|
  {
    if |changes| > 0 {
      PointKeysAre(changes[1..], x);
      if x in PointKeys(changes[1..]) {
        var j :| 0 <= j < |changes| - 1 && changes[1..][j].SetPoint? && changes[1..][j].k == x;
        assert changes[j + 1] == changes[1..][j];
      }
      if exists j :: 0 <= j < |changes| && changes[j].SetPoint? && changes[j].k == x {
        var j :| 0 <= j < |changes| && changes[j].SetPoint? && changes[j].k == x;
        if j > 0 {
          assert changes[1..][j - 1] == changes[j];
        }
      }
    }
  }

  lemma {:induction false} OriginKeysAre(changes: seq<Change>, x: int)
    ensures x in OriginKeys(changes) <==> exists j :: 0 <= j < |changes| && IsOriginChange(changes[j]) && changes[j].path[0].i == x
    decreases |changes|
  {
    if |changes| > 0 {
      OriginKeysAre(changes[1..], x);
      if x in OriginKeys(changes[1..]) {
        var j :| 0 <= j < |changes| - 1 && IsOriginChange(changes[1..][j]) && changes[1..][j].path[0].i == x;
        assert changes[j + 1] == changes[1..][j];
      }
      if exists j :: 0 <= j < |changes| && IsOriginChange(changes[j]) && changes[j].path[0].i == x {
        var j :| 0 <= j < |changes| && IsOriginChange(changes[j]) && changes[j].path[0].i == x;
        if j > 0 {
          assert changes[1..][j - 1] == changes[j];
        }
      }
    }
  }

  /** Every point an edit func writes is a participating point, so the rollback writes it too. */
  lemma PathKeysCovered(pathChanges: seq<Change>, funcs: seq<EditFunc>, rollbackPoints: seq<Change>, participating: seq<int>, x: int)
    requires |pathChanges| == |funcs|
    requires forall j :: 0 <= j < |pathChanges| ==> pathChanges[j].SetPoint? && pathChanges[j].k == funcs[j].startPoint + funcs[j].thePoint
    requires forall f :: f in funcs ==> f.startPoint + f.thePoint in participating
    requires |rollbackPoints| == |participating|
    requires forall j :: 0 <= j < |rollbackPoints| ==> rollbackPoints[j].SetPoint? && rollbackPoints[j].k == participating[j]
    requires x !in PointKeys(rollbackPoints)
    ensures x !in PointKeys(pathChanges)
  {
    PointKeysAre(pathChanges, x);
    PointKeysAre(rollbackPoints, x);
    forall j | 0 <= j < |pathChanges| ensures pathChanges[j].k != x {
      var y := pathChanges[j].k;
      assert funcs[j] in funcs;
      var i :| 0 <= i < |participating| && participating[i] == y;
      assert rollbackPoints[i].k == y;
    }
  }

  /** The drag and the rollback change the origins of the same components. */
  lemma OriginKeysCovered(componentChanges: seq<Change>, rollbackOrigins: seq<Change>, componentSelection: seq<int>, x: int)
    requires |componentChanges| == |rollbackOrigins| == |componentSelection|
    requires forall j :: 0 <= j < |componentChanges| ==> IsOriginChange(componentChanges[j]) && componentChanges[j].path[0].i == componentSelection[j]
    requires forall j :: 0 <= j < |rollbackOrigins| ==> IsOriginChange(rollbackOrigins[j]) && rollbackOrigins[j].path[0].i == componentSelection[j]
    requires x !in OriginKeys(rollbackOrigins)
    ensures x !in OriginKeys(componentChanges)
  {
    OriginKeysAre(componentChanges, x);
    OriginKeysAre(rollbackOrigins, x);
  }

  /**
   * Dragging and then rolling back restores the glyph: whatever the
   * transform and the floating-point actions do, applying the change an
   * edit behaviour makes and then its rollback change gives back every
   * point and every component origin.
   */
  lemma ChangeThenRollbackRestores(g: Instance, selection: seq<Option<seq<int>>>, componentSelection: seq<int>, behavior: BehaviorType,
                                   transform: Vec -> Vec, geometry: (EditFunc, seq<Vec>, Vec -> Vec) -> Vec)
    requires Wf(g.path) && NewEditBehavior(g, selection, componentSelection, behavior).Ok?
    ensures var b := NewEditBehavior(g, selection, componentSelection, behavior).value;
            Apply(Apply(g, [], ChangeForTransform(b, transform, geometry)), [], b.rollbackChange) == g
  {
    var b := NewEditBehavior(g, selection, componentSelection, behavior).value;
    var (funcs, participating) := PointEditFuncs(g.path, selection, behavior.matchTree, behavior.actions).value;
    NewEditBehaviorParts(g, selection, componentSelection, behavior);
    RollbackRestores(g, b, funcs, participating, transform, geometry);
  }

  /** What the constructor stores, in the terms the round trip needs. */
  lemma NewEditBehaviorParts(g: Instance, selection: seq<Option<seq<int>>>, componentSelection: seq<int>, behavior: BehaviorType)
    requires Wf(g.path) && NewEditBehavior(g, selection, componentSelection, behavior).Ok?
    ensures PointEditFuncs(g.path, selection, behavior.matchTree, behavior.actions).Ok?
    ensures var b := NewEditBehavior(g, selection, componentSelection, behavior).value;
            var (funcs, participating) := PointEditFuncs(g.path, selection, behavior.matchTree, behavior.actions).value;
            && b.pointEditFuncs == funcs
            && (forall f :: f in funcs ==> f.startPoint + f.thePoint in participating)
            && (forall k :: 0 <= k < |participating| ==> 0 <= participating[k] && 2 * participating[k] + 1 < |g.path.coordinates|)
            && (forall k :: 0 <= k < |componentSelection| ==> 0 <= componentSelection[k] < |g.origins|)
            && b.componentSelection == componentSelection
            && (forall k :: 0 <= k < |componentSelection| ==> b.componentOrigins[k] == g.origins[componentSelection[k]])
            && b.rollbackChange == RollbackChange(g, participating, componentSelection)
  {
    PointEditFuncsShape(g.path, selection, behavior.matchTree, behavior.actions);
  }

  /** The round trip for an edit behaviour with the stored parts `funcs` and `participating`. */
  lemma RollbackRestores(g: Instance, b: EditBehaviorValue, funcs: seq<EditFunc>, participating: seq<int>,
                         transform: Vec -> Vec, geometry: (EditFunc, seq<Vec>, Vec -> Vec) -> Vec)
    requires FuncsInPath(b.pointEditFuncs, |b.originals|) && |b.componentOrigins| == |b.componentSelection|
    requires b.pointEditFuncs == funcs
    requires forall f :: f in funcs ==> f.startPoint + f.thePoint in participating
    requires forall k :: 0 <= k < |participating| ==> 0 <= participating[k] && 2 * participating[k] + 1 < |g.path.coordinates|
    requires forall k :: 0 <= k < |b.componentSelection| ==> 0 <= b.componentSelection[k] < |g.origins|
    requires forall k :: 0 <= k < |b.componentSelection| ==> b.componentOrigins[k] == g.origins[b.componentSelection[k]]
    requires b.rollbackChange == RollbackChange(g, participating, b.componentSelection)
    ensures Apply(Apply(g, [], ChangeForTransform(b, transform, geometry)), [], b.rollbackChange) == g
  {
    var g1 := Apply(g, [], ChangeForTransform(b, transform, geometry));
    DragEffect(g, b, transform, geometry);
    RollbackEffect(g1, g, participating, b.componentSelection);
    DraggedPointsRestored(g, b, funcs, participating, transform, geometry);
    DraggedOriginsRestored(g, b, participating, transform);
  }

  /** The drag's point changes followed by the rollback's give the original coordinates back. */
  lemma DraggedPointsRestored(g: Instance, b: EditBehaviorValue, funcs: seq<EditFunc>, participating: seq<int>,
                              transform: Vec -> Vec, geometry: (EditFunc, seq<Vec>, Vec -> Vec) -> Vec)
    requires FuncsInPath(b.pointEditFuncs, |b.originals|) && b.pointEditFuncs == funcs
    requires forall f :: f in funcs ==> f.startPoint + f.thePoint in participating
    requires forall k :: 0 <= k < |participating| ==> 0 <= participating[k] && 2 * participating[k] + 1 < |g.path.coordinates|
    requires forall k :: 0 <= k < |b.componentSelection| ==> 0 <= b.componentSelection[k] < |g.origins|
    ensures var rollback := RollbackChange(g, participating, b.componentSelection);
            SetAllXY(SetAllXY(g.path.coordinates, PathChanges(b, transform, geometry)), rollback.changes[0].changes) == g.path.coordinates
  {
    var rollback := RollbackChange(g, participating, b.componentSelection);
    RollbackRestoresTo(g, participating, b.componentSelection);
    CoordinatesRestored(g.path.coordinates, PathChanges(b, transform, geometry), rollback.changes[0].changes, funcs, participating);
  }

  /** The drag's origin changes followed by the rollback's give the original origins back. */
  lemma DraggedOriginsRestored(g: Instance, b: EditBehaviorValue, participating: seq<int>, transform: Vec -> Vec)
    requires |b.componentOrigins| == |b.componentSelection|
    requires forall k :: 0 <= k < |participating| ==> 0 <= participating[k] && 2 * participating[k] + 1 < |g.path.coordinates|
    requires forall k :: 0 <= k < |b.componentSelection| ==> 0 <= b.componentSelection[k] < |g.origins|
    ensures var rollback := RollbackChange(g, participating, b.componentSelection);
            SetAllOrigins(SetAllOrigins(g.origins, ComponentChanges(b, transform)), rollback.changes[1].changes) == g.origins
  {
    var rollback := RollbackChange(g, participating, b.componentSelection);
    RollbackRestoresTo(g, participating, b.componentSelection);
    OriginsRestored(g.origins, ComponentChanges(b, transform), rollback.changes[1].changes, b.componentSelection);
  }

  /** The change of a transform moves the funcs' points and the selected components' origins, and nothing else. */
  lemma DragEffect(g: Instance, b: EditBehaviorValue, transform: Vec -> Vec, geometry: (EditFunc, seq<Vec>, Vec -> Vec) -> Vec)
    requires FuncsInPath(b.pointEditFuncs, |b.originals|) && |b.componentOrigins| == |b.componentSelection|
    ensures Apply(g, [], ChangeForTransform(b, transform, geometry))
            == Instance(g.path.(coordinates := SetAllXY(g.path.coordinates, PathChanges(b, transform, geometry))),
                        SetAllOrigins(g.origins, ComponentChanges(b, transform)))
  {
    var pathChanges := PathChanges(b, transform, geometry);
    var componentChanges := ComponentChanges(b, transform);
    TwoGroupsEffect(g, pathChanges, componentChanges, |pathChanges| > 0, |componentChanges| > 0);
  }

  /** The rollback change of `g`, applied to `g1`, moves the participating points and selected origins and nothing else. */
  lemma RollbackEffect(g1: Instance, g: Instance, participating: seq<int>, componentSelection: seq<int>)
    requires forall k :: 0 <= k < |participating| ==> 0 <= participating[k] && 2 * participating[k] + 1 < |g.path.coordinates|
    requires forall k :: 0 <= k < |componentSelection| ==> 0 <= componentSelection[k] < |g.origins|
    ensures var rollback := RollbackChange(g, participating, componentSelection);
            Apply(g1, [], rollback) == Instance(g1.path.(coordinates := SetAllXY(g1.path.coordinates, rollback.changes[0].changes)),
                                                SetAllOrigins(g1.origins, rollback.changes[1].changes))
  {
    var rollback := RollbackChange(g, participating, componentSelection);
    var rollbackPoints := rollback.changes[0].changes;
    var rollbackOrigins := rollback.changes[1].changes;
    assert rollback == Group([], [Group([Str("path")], rollbackPoints)] + [Group([Str("components")], rollbackOrigins)]);
    RollbackRestoresTo(g, participating, componentSelection);
    TwoGroupsEffect(g1, rollbackPoints, rollbackOrigins, true, true);
  }

  /** The rollback puts every participating point and selected component back where it is in `g`. */
  lemma RollbackRestoresTo(g: Instance, participating: seq<int>, componentSelection: seq<int>)
    requires forall k :: 0 <= k < |participating| ==> 0 <= participating[k] && 2 * participating[k] + 1 < |g.path.coordinates|
    requires forall k :: 0 <= k < |componentSelection| ==> 0 <= componentSelection[k] < |g.origins|
    ensures var rollback := RollbackChange(g, participating, componentSelection);
            && RestoresTo(rollback.changes[0].changes, g.path.coordinates)
            && (forall j :: 0 <= j < |participating| ==> rollback.changes[0].changes[j].k == participating[j])
            && RestoresOrigins(rollback.changes[1].changes, g.origins)
            && (forall j :: 0 <= j < |componentSelection| ==>
                  IsOriginChange(rollback.changes[1].changes[j]) && rollback.changes[1].changes[j].path[0].i == componentSelection[j])
  {
    var rollback := RollbackChange(g, participating, componentSelection);
    var points := rollback.changes[0].changes;
    forall j | 0 <= j < |points|
      ensures points[j] == SetPoint(participating[j], g.path.coordinates[2 * participating[j]], g.path.coordinates[2 * participating[j] + 1])
    {
    }
  }

  /** The points: the drag writes only participating points, and the rollback puts every participating point back. */
  lemma CoordinatesRestored(original: seq<real>, pathChanges: seq<Change>, rollbackPoints: seq<Change>, funcs: seq<EditFunc>, participating: seq<int>)
    requires |pathChanges| == |funcs|
    requires forall j :: 0 <= j < |pathChanges| ==> pathChanges[j].SetPoint? && pathChanges[j].k == funcs[j].startPoint + funcs[j].thePoint
    requires forall f :: f in funcs ==> f.startPoint + f.thePoint in participating
    requires |rollbackPoints| == |participating|
    requires forall j :: 0 <= j < |rollbackPoints| ==> rollbackPoints[j].SetPoint? && rollbackPoints[j].k == participating[j]
    requires RestoresTo(rollbackPoints, original)
    ensures SetAllXY(SetAllXY(original, pathChanges), rollbackPoints) == original
  {
    var dragged := SetAllXY(original, pathChanges);
    forall m | 0 <= m < |original|
      ensures SetAllXY(dragged, rollbackPoints)[m] == original[m]
    {
      SetAllXYRestores(dragged, rollbackPoints, original, m);
      if m / 2 !in PointKeys(rollbackPoints) {
        PathKeysCovered(pathChanges, funcs, rollbackPoints, participating, m / 2);
        SetAllXYUntouched(original, pathChanges, m);
      }
    }
  }

  /** The origins: the drag and the rollback write the same components, the rollback their old origins. */
  lemma OriginsRestored(original: seq<Vec>, componentChanges: seq<Change>, rollbackOrigins: seq<Change>, componentSelection: seq<int>)
    requires |componentChanges| == |rollbackOrigins| == |componentSelection|
    requires forall j :: 0 <= j < |componentChanges| ==> IsOriginChange(componentChanges[j]) && componentChanges[j].path[0].i == componentSelection[j]
    requires forall j :: 0 <= j < |rollbackOrigins| ==> IsOriginChange(rollbackOrigins[j]) && rollbackOrigins[j].path[0].i == componentSelection[j]
    requires RestoresOrigins(rollbackOrigins, original)
    ensures SetAllOrigins(SetAllOrigins(original, componentChanges), rollbackOrigins) == original
  {
    var dragged := SetAllOrigins(original, componentChanges);
    forall m | 0 <= m < |original|
      ensures SetAllOrigins(dragged, rollbackOrigins)[m] == original[m]
    {
      SetAllOriginsRestores(dragged, rollbackOrigins, original, m);
      if m !in OriginKeys(rollbackOrigins) {
        OriginKeysCovered(componentChanges, rollbackOrigins, componentSelection, m);
        SetAllOriginsUntouched(original, componentChanges, m);
      }
    }
  }
}
