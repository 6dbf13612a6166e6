# A verified model of fontra's packed glyph path and its editing logic

Fontra is a browser-based font editor. At its centre is `VarPackedPath`, a glyph outline kept in three parallel containers:

- `coordinates`: the x, y pairs of all points, flattened;
- `pointTypes`: one integer per point. The low three bits say on-curve, quadratic or cubic off-curve. Bit `0x08` is the smooth flag;
- `contourInfo`: one `{endPoint, isClosed}` record per contour.

The editor's tools work on this structure by index arithmetic: selections, contour reversal, start points, the pen tool's change lists, neighbour lookups and the point-match rules of drag behaviours. Around them sit record and format logic: glyph and source records, designspace source bookkeeping, nested change paths, the text field's glyph-line parsing, and the backend's CSV formats.

This project models that logic in Dafny and proves what the program promises about it. There is one module per source file:

| module | file | source |
|---|---|---|
| `Base` | base.dfy | `Option`/`Result` and small sequence lemmas shared by all modules |
| `JsValue` | js_value.dfy | JavaScript values (`undefined`, `null`, numbers, strings, arrays, objects) and the JSON copy |
| `PathData` | path_data.dfy | var-path.js as values: the packed invariant, contours, point packing, the splice-and-shift edits as functions |
| `PathDrawing` | path_drawing.dfy | var-path.js drawing and segmentation: `drawContourToPath`, `drawQuadSegment`, `drawCubicSegment`, `_iterContourSegmentPointIndices` |
| `VarPath` | var_path.dfy | the `VarPackedPath` class itself, with its three containers as objects that copies may share |
| `EditBehavior` | edit_behavior.dfy | edit-behavior.js |
| `SceneController` | scene_controller.dfy | scene-controller.js |
| `PenTool` | pen_tool.dfy | edit-tools-pen.js |
| `PointerTool` | pointer_tool.dfy | edit-tools-pointer.js |
| `VarGlyph` | var_glyph.dfy | var-glyph.js |
| `DesignspaceNavigation` | designspace.dfy | panel-designspace-navigation.js |
| `SelectionInfo` | selection_info.dfy | panel-selection-info.js |
| `EditorText` | editor_text.dfy | the text, sort and nested-value helpers of editor.js |
| `FontraBackend` | fontra_backend.dfy | backends/fontra.py: glyph-info and kerning CSV formats, the write scheduler, the glyph map |

How the source is represented:

- Coordinates are `real`, so implied on-curve midpoints are exact.
- A point type is the raw integer. Its masked type is `t % 8`, which equals JavaScript's `t & 7` on a two's-complement integer. Its smooth flag is `(t / 8) % 2 == 1`.
- The three containers of a path are separate objects. `addItemwise`, `subItemwise`, `mulScalar` and `transformed` return paths that share the receiver's point-type and contour-info objects, as the program does. `copy` makes new ones.
- A drawing is the sequence of calls made on the pen (`moveTo`, `lineTo`, `quadraticCurveTo`, `bezierCurveTo`, `closePath`).
- Where the program changes state in place, the model uses classes with `modifies` clauses: `VarPackedPath`, the pen tool's `PointAdder`, the path-connect detector, glyph records, the selection panel's instance, the backend and its scheduler. Each method is tied by its `ensures` to a function on values, and the properties are proved about those functions.
- Thrown exceptions are `Result` and `Outcome` errors that carry the program's message data.
- Strings in editor.js are UTF-16 code units (`seq<int>`), since a Dafny `char` cannot hold a lone surrogate.
- CSV files are rows of cells (`seq<seq<string>>`).
- Work the program hands to code outside this model is a parameter: floating-point geometry, rectangle hit tests, dialog answers and name lookups. Each such case is listed below.

## Model

| member | source | states |
|---|---|---|
| PathData.MaskedType | src/fontra/client/core/var-path.js:219 | the masked type lies in 0..7 and differs from the packed type by a multiple of 8, which is `& POINT_TYPE_MASK` (0x07) on a two's-complement integer |
| PathData.ContainingContourUnique | src/fontra/client/core/var-path.js:741-760 | under the integrity condition `_checkIntegrity` tests, a point index lies in at most one contour |
| PathData.ContourBounds | src/fontra/client/core/var-path.js:337-339 | under the integrity condition every contour's points, from its start (previous end point plus one) to its end point, lie within the point array |
| PathData.ContourIndexOf | src/fontra/client/core/var-path.js:107-126 | `getContourIndex` has a result exactly for an index inside the path; the result is the smallest contour whose end point is at or after the index, and that contour holds the index |
| PathData.StartOrEndValue | src/fontra/client/core/var-path.js:341-357 | `isStartOrEndPoint` raises exactly for an index outside the path, with that index in the error |
| PathData.GetContourValue | src/fontra/client/core/var-path.js:163-172 | `getContour` returns a well-formed contour whose length is the contour's end point plus one minus its start |
| PathData.NormalizeContourIndex | src/fontra/client/core/var-path.js:311-321 | `_normalizeContourIndex` succeeds exactly for indices in -numContours..numContours-1 (one more when inserting); the result is the index itself or the index plus numContours; otherwise the error names the original index |
| PathData.AbsolutePointIndex | src/fontra/client/core/var-path.js:323-335 | `getAbsolutePointIndex` on a contour that does not exist raises; a result lies within the contour's slots (one past its end when inserting) |
| PathData.AbsolutePointIndexRange | src/fontra/client/core/var-path.js:323-335 | on an existing contour of n points, `getAbsolutePointIndex` accepts exactly the point indices -n..n-1 (n too when inserting), gives the contour's start plus the index (plus n for a negative one), and otherwise raises naming the point index |
| PathData.PackPointType | src/fontra/client/core/var-path.js:861-872 | `packPointType` gives a canonical type; it is on-curve exactly when the type is absent or empty, and carries the smooth flag exactly for a smooth on-curve point |
| PathData.UnpackPoint | src/fontra/client/core/var-path.js:211-229 | the point `getPoint` builds keeps the coordinates, has a type exactly when the masked type is not on-curve, and is smooth exactly when it is on-curve with the smooth flag set |
| PathData.PackUnpackType | src/fontra/client/core/var-path.js:861-872 | packing the type of an unpacked canonical type gives the packed type back |
| PathData.UnpackPackPoint | src/fontra/client/core/var-path.js:211-229 | unpacking a packed canonical point gives the point back |
| PathData.GetPointValue | src/fontra/client/core/var-path.js:211-229 | `getPoint` gives a point exactly for an index inside the path, with the coordinates at 2i and 2i+1 |
| PathData.PackedOf | src/fontra/client/core/var-path.js:874-888 | `packContour` gives a well-formed packed contour with one type per point and the same closedness |
| PathData.PackUnpackContour | src/fontra/client/core/var-path.js:874-888 | packing the unpacked form of a contour with canonical types restores the contour |
| PathData.UnpackPackContour | src/fontra/client/core/var-path.js:143-149 | unpacking a packed contour of canonical points restores it |
| PathData.UnpackedContours | src/fontra/client/core/var-path.js:46-48 | `unpackedContours` gives one unpacked contour per contour |
| PathData.UnpackedContoursRoundTrip | src/fontra/client/core/var-path.js:38-48 | `fromUnpackedContours(path.unpackedContours())` rebuilds a well-formed path exactly when its point types are canonical |
| PathData.RebuiltIsCanonical | src/fontra/client/core/var-path.js:38-44 | every point type of the path `fromUnpackedContours` builds is one the API produces |
| PathData.ConcatContours | src/fontra/client/core/var-path.js:727-739 | `concat` of two well-formed paths is well formed and lists the contours of the first path, then those of the second |
| PathData.SubPathContours | src/fontra/client/core/var-path.js:163-172 | contours c1..c2 cut out of a well-formed path form a well-formed path listing exactly those contours |
| PathData.SubPathSingle | src/fontra/client/core/var-path.js:163-172 | cutting out one contour gives the single-contour path of `getContour`'s result |
| PathData.FlattenOfContours | src/fontra/client/core/var-path.js:38-48 | a well-formed path is rebuilt exactly by concatenating its contours |
| PathData.ContoursDetermine | src/fontra/client/core/var-path.js:741-760 | two well-formed paths with the same contour list are equal |
| PathData.SetContourIsConcat | src/fontra/client/core/var-path.js:174-186 | `setContour` equals the path before contour c, the new contour and the path after c, concatenated |
| PathData.InsertContourIsConcat | src/fontra/client/core/var-path.js:192-199 | `insertContour` equals the path before contour c, the new contour and the path from c on, concatenated |
| PathData.DeleteContourIsConcat | src/fontra/client/core/var-path.js:201-209 | `deleteContour` equals the paths before and after contour c, concatenated |
| PathData.SetContourWf | src/fontra/client/core/var-path.js:174-186 | `setContour` keeps the integrity condition exactly when the new contour is well formed |
| PathData.SetContourContours | src/fontra/client/core/var-path.js:174-186 | `setContour` keeps the integrity condition exactly when the new contour is well formed, and then replaces contour c in the contour list and changes no other |
| PathData.InsertContourContours | src/fontra/client/core/var-path.js:192-199 | `insertContour` keeps the integrity condition exactly when the new contour is well formed, and then inserts it into the contour list at c |
| PathData.DeleteContourContours | src/fontra/client/core/var-path.js:201-209 | `deleteContour` keeps the integrity condition and removes contour c from the contour list |
| PathData.InsertPointIsSetContour | src/fontra/client/core/var-path.js:269-298 | inserting a point is setting its contour to that contour with the point inserted at the same offset |
| PathData.DeletePointIsSetContour | src/fontra/client/core/var-path.js:285-291 | deleting a point is setting its contour to that contour without the point |
| PathData.InsertPointContours | src/fontra/client/core/var-path.js:269-298 | `insertPoint` keeps the integrity condition, inserts the packed point into its contour and changes no other contour |
| PathData.DeletePointContours | src/fontra/client/core/var-path.js:285-291 | `deletePoint` keeps the integrity condition, removes the point from its contour and changes no other contour |
| PathData.AppendContourIsInsert | src/fontra/client/core/var-path.js:188-190 | `appendContour` is `insertContour` after the last contour, which is concatenating the single-contour path |
| PathData.SetPointGetPoint | src/fontra/client/core/var-path.js:211-234 | `getPoint` after `setPoint` gives the point with its type packed and unpacked (a canonical point exactly); the integrity condition is kept; no other point changes |
| PathData.ContourPointIsPoint | src/fontra/client/core/var-path.js:249-257 | point j of contour c is the path's point at the contour's start plus j |
| PathData.UnpackedFromPoints | src/fontra/client/core/var-path.js:139-149 | the points read one by one from a contour's slots are that contour, unpacked |
| PathData.AppendNoPoints | src/fontra/client/core/var-path.js:455-459 | appending no points changes nothing |
| PathData.AppendPointsTwice | src/fontra/client/core/var-path.js:455-459 | two appends in a row are one append of both point lists |
| PathData.AppendPointsContours | src/fontra/client/core/var-path.js:455-474 | the pen's appends keep the integrity condition exactly when two coordinates come with every point type, extend the last contour and change no other |
| PathData.CloseLastContourContours | src/fontra/client/core/var-path.js:488-490 | `closePath` keeps the integrity condition, closes the last contour and changes nothing else |
| PathDrawing.QuadSegmentOpsAt | src/fontra/client/core/var-path.js:812-823 | `drawQuadSegment` issues one quadratic curve per off-curve point, each to the midpoint of consecutive off-curve points and the last to the segment's end point |
| PathDrawing.DrawQuadSegment | src/fontra/client/core/var-path.js:812-823 | the loop of `drawQuadSegment` emits exactly the quadratic curves of the segment |
| PathDrawing.CubicSegmentOp | src/fontra/client/core/var-path.js:825-839 | `drawCubicSegment` ends at the segment's last point, and with three or more points is a cubic through the first and the last but one off-curve points |
| PathDrawing.SegmentOpsShape | src/fontra/client/core/var-path.js:808-839 | every line, quad or cubic segment is drawn by curve or line calls only and ends at the segment's last point |
| PathDrawing.DrawSegment | src/fontra/client/core/var-path.js:808-839 | a segment is drawn with exactly the calls of its segment function |
| PathDrawing.PenStep | src/fontra/client/core/var-path.js:763-806 | one pass of the loop of `drawContourToPath` succeeds exactly when the point type is a legal kind |
| PathDrawing.PenBeforeDrawn | src/fontra/client/core/var-path.js:763-806 | the drawing state before walk position i exists exactly when no earlier point type was illegal, and is the drawing of the segments so far |
| PathDrawing.DrawContourToPath | src/fontra/client/core/var-path.js:763-806 | the loop of `drawContourToPath` emits exactly the calls of the walk from the first on-curve point (`WalkOps`) |
| PathDrawing.DrawPoint | src/fontra/client/core/var-path.js:763-806 | one pass of the loop extends the drawing state to the next position, or, for an illegal point type, ends the walk with what it has drawn |
| PathDrawing.WalkOpsShape | src/fontra/client/core/var-path.js:763-806 | a walk draws one sub-path: it begins with the only move, at the first on-curve point, and ends with a close exactly when it completes on a closed contour |
| PathDrawing.AllOnCurveDrawn | src/fontra/client/core/var-path.js:763-806 | a closed contour of on-curve points only is drawn without error: the move, the segments, the close |
| PathDrawing.AllOnCurveLines | src/fontra/client/core/var-path.js:763-806 | the calls for such a contour are the move, a line to each following point and back to the first, and the close (n + 2 calls) |
| PathDrawing.FirstOnCurveIsFirst | src/fontra/client/core/var-path.js:669-683 | no point before the first on-curve point found is on-curve, and when none is found no point of the contour is |
| PathDrawing.FindFirstOnCurve | src/fontra/client/core/var-path.js:669-683 | the search loop at the start of `_drawContourToPath2d` finds the first on-curve point of the contour, or none |
| PathDrawing.BlobMidpointAsWrittenDiffers | src/fontra/client/core/var-path.js:699-702 | the implied point of a quad blob, as written, is NaN for a blob that does not start at point 0 (while the true midpoint is a number), and the true midpoint for a blob at point 0 |
| PathDrawing.QuadBlobOps | src/fontra/client/core/var-path.js:699-713 | a contour of quad off-curve points is drawn as a move to the implied point, one run of quadratic curves through the blob back to the implied point, and a close |
| PathDrawing.BlobAsWrittenStartsAtNaN | src/fontra/client/core/var-path.js:699-713 | as written, a contour without an on-curve point that does not start at point 0 is drawn starting with `moveTo(NaN, NaN)` |
| PathDrawing.BlobStartsAtMidpoint | src/fontra/client/core/var-path.js:699-713 | with the corrected implied point, such a contour starts with a move to the midpoint of its last and first points |
| PathDrawing.ContourOpsOfBlob | src/fontra/client/core/var-path.js:699-713 | a contour without an on-curve point is drawn as the walk of its blob from the corrected implied point |
| PathDrawing.DrawContour | src/fontra/client/core/var-path.js:669-715 | `_drawContourToPath2d` (implied blob point corrected) emits exactly `ContourOps` for the contour |
| PathDrawing.ContourOps | src/fontra/client/core/var-path.js:669-715 | defines the calls `_drawContourToPath2d` makes, with the implied blob point corrected (see Findings); `DrawContour`, `ContourOpsOfBlob` and `ContourOpsOneMove` state what it does |
| PathDrawing.ContourOpsAsWritten | src/fontra/client/core/var-path.js:699-702 | defines the same calls with the implied point read as the program reads it; `BlobAsWrittenStartsAtNaN` shows where it goes wrong |
| PathDrawing.ContourDrawn | src/fontra/client/core/var-path.js:662-715 | a drawn contour opens exactly one sub-path |
| PathDrawing.PointsDrawn | src/fontra/client/core/var-path.js:669-715 | the drawing of the points of a contour opens exactly one sub-path |
| PathDrawing.ContourDrawings | src/fontra/client/core/var-path.js:652-660 | there is one drawing per contour |
| PathDrawing.PathDrawnStep | src/fontra/client/core/var-path.js:652-660 | one step of `drawToPath2d` appends contour c's calls, and stops there when that contour raised |
| PathDrawing.DrawPathContour | src/fontra/client/core/var-path.js:662-667 | drawing contour c from its start point to its end point gives that contour's drawing |
| PathDrawing.DrawPath | src/fontra/client/core/var-path.js:652-660 | the loop of `drawToPath2d` draws every contour in turn, stopping at the first that raises (`PathOps`) |
| PathDrawing.ContourOpsOneMove | src/fontra/client/core/var-path.js:669-715 | a contour's calls open exactly one sub-path, whether or not the contour raises |
| PathDrawing.PathOpsOneMovePerContour | src/fontra/client/core/var-path.js:652-660 | a path drawn without raising opens one sub-path per contour |
| PathDrawing.IterContourSegmentPointIndices | src/fontra/client/core/var-path.js:598-650 | `_iterContourSegmentPointIndices`, collected, gives exactly `ContourSegments`: the quad blob when there is no on-curve point, else the segments of the walk, or the error for an illegal point type |
| PathDrawing.WalkSegmentPointIndices | src/fontra/client/core/var-path.js:598-650 | the loop of the segment iterator from the first on-curve point gives exactly the walk's segments (`WalkSegments`) |
| PathDrawing.SegmentAtOps | src/fontra/client/core/var-path.js:763-806 | each segment the iterator reports is drawable and is drawn with the calls the drawing walk makes for it |
| PathDrawing.DrawingFollowsSegments | src/fontra/client/core/var-path.js:539-555 | the two walks agree: the drawing of a contour is the concatenated drawing of the segments `getContourSegmentPointIndices` reports, in order |
| VarPath.BoundsUnique | src/fontra/client/core/var-path.js:75-94 | the bounds of a range of points are unique, so `_getControlBounds`'s result is determined by its contract |
| VarPath.PointTypesEquals | src/fontra/client/core/var-path.js:846-859 | `pointTypesEquals` holds exactly when both lists have the same length and agree on every masked type |
| VarPath.PackContour | src/fontra/client/core/var-path.js:874-888 | the loop of `packContour` computes `PackedOf`, which unpacking inverts (`PathData.UnpackPackContour`) |
| VarPath.ItemwiseChecked | src/fontra/client/core/var-path.js:492-520 | `addItemwise`/`subItemwise` on coordinate arrays succeed exactly when the lengths agree, combining pairwise; otherwise the error names both lengths |
| VarPath.AddSubItemwise | src/fontra/client/core/var-path.js:492-520 | subtracting itemwise what was added itemwise restores the coordinates |
| VarPath.ContourHandlesAre | src/fontra/client/core/var-path.js:407-435 | the handles `iterHandles` yields for a contour are exactly the pairs of neighbouring points whose masked types differ, including the pair (last, first) of a closed contour |
| VarPath.NoHandlesWithoutOffCurves | src/fontra/client/core/var-path.js:407-435 | a contour of on-curve points only has no handles |
| VarPath.IterContourHandles | src/fontra/client/core/var-path.js:407-435 | the inner loop of `iterHandles` yields the coordinates of exactly the contour's handles, in order |
| VarPath.Scaled | src/fontra/client/core/var-path.js:531-537 | `mulScalar`'s coordinates are the coordinates multiplied by the scalar, one by one |
| VarPath.VarPackedPath.Empty | src/fontra/client/core/var-path.js:18-28 | `new VarPackedPath()` is the empty, well-formed path over new containers |
| VarPath.VarPackedPath.FromObject | src/fontra/client/core/var-path.js:30-36 | `fromObject` copies the coordinates into a new container and shares the point types and the contour list |
| VarPath.VarPackedPath.NumPoints | src/fontra/client/core/var-path.js:54-56 | `numPoints` is where the last contour ends, and half the number of coordinates |
| VarPath.VarPackedPath.NumContours | src/fontra/client/core/var-path.js:50-52 | defines `numContours` as the number of contour records; the contour lemmas are stated over it |
| VarPath.VarPackedPath.GetNumPointsOfContour | src/fontra/client/core/var-path.js:58-63 | `getNumPointsOfContour` succeeds exactly for a contour index in -n..n-1 and gives that contour's size (negative indices counting from the end); otherwise the error names the index |
| VarPath.VarPackedPath.GetContour | src/fontra/client/core/var-path.js:163-172 | `getContour` succeeds exactly for a contour index in -n..n-1 and gives that contour of the contour list |
| VarPath.VarPackedPath.SetContour | src/fontra/client/core/var-path.js:174-186 | `setContour` fails without change for a bad index; otherwise the path becomes `SetContourValue`, stays well formed exactly when the new contour is, and then has contour c replaced and no other changed |
| VarPath.VarPackedPath.InsertContour | src/fontra/client/core/var-path.js:192-199 | `insertContour` fails without change for a bad index; otherwise it inserts the contour into the contour list at the normalised index (one past the last allowed) |
| VarPath.VarPackedPath.AppendContour | src/fontra/client/core/var-path.js:188-190 | `appendContour` makes the contour the last one; the path stays well formed exactly when the contour is |
| VarPath.VarPackedPath.DeleteContour | src/fontra/client/core/var-path.js:201-209 | `deleteContour` fails without change for a bad index; otherwise it removes the contour and its points, keeping the path well formed |
| VarPath.VarPackedPath.GetPointPosition | src/fontra/client/core/var-path.js:236-238 | `getPointPosition` gives the coordinates of the point `getPoint` reads |
| VarPath.VarPackedPath.GetPoint | src/fontra/client/core/var-path.js:211-229 | `getPoint` gives a point exactly for an index inside the path, negative ones excluded, with that point's two coordinates |
| VarPath.VarPackedPath.SetPointPosition | src/fontra/client/core/var-path.js:240-243 | `setPointPosition` writes coordinates 2i and 2i+1 and nothing else |
| VarPath.VarPackedPath.SetPointType | src/fontra/client/core/var-path.js:245-247 | `setPointType` writes the packed type of the point type and smooth flag at index i and nothing else |
| VarPath.VarPackedPath.SetPoint | src/fontra/client/core/var-path.js:231-234 | after `setPoint` a canonical point reads back unchanged and no other point changes; well-formedness is kept |
| VarPath.VarPackedPath.ContourPointIndex | src/fontra/client/core/var-path.js:311-335 | normalising the contour index then `getAbsolutePointIndex`: a bad contour index and a point index outside -m..m-1 (m too when inserting) raise; otherwise the contour and its start plus the point index |
| VarPath.VarPackedPath.GetContourPoint | src/fontra/client/core/var-path.js:249-257 | `getContourPoint` fails exactly when the index pair does, and otherwise gives point j of contour c |
| VarPath.VarPackedPath.SetContourPoint | src/fontra/client/core/var-path.js:259-267 | `setContourPoint` fails without change for a bad index pair and otherwise sets the addressed point, keeping the path well formed |
| VarPath.VarPackedPath.InsertPoint | src/fontra/client/core/var-path.js:269-298 | `insertPoint` fails without change for a bad index pair; otherwise it inserts the packed point into its contour, changes no other contour and keeps the path well formed |
| VarPath.VarPackedPath.InsertPointAt | src/fontra/client/core/var-path.js:293-298 | `_insertPoint` leaves the path as `InsertPointValue` says: the point's coordinates and packed type spliced in at the index, and the end points of the contour and all later ones moved up by one |
| VarPath.VarPackedPath.AppendPoint | src/fontra/client/core/var-path.js:279-283 | `appendPoint` fails without change for a bad contour index; otherwise the point goes after the contour's last point |
| VarPath.VarPackedPath.DeletePoint | src/fontra/client/core/var-path.js:285-291 | `deletePoint` fails without change for a bad index pair; otherwise it removes the point from its contour and changes no other contour |
| VarPath.VarPackedPath.GetContourIndex | src/fontra/client/core/var-path.js:107-126 | the binary search of `getContourIndex` finds a contour exactly for an index inside the path, the contour that holds it, and equals `PathData.ContourIndexOf` (the smallest contour ending at or after the index) |
| VarPath.VarPackedPath.GetContourAndPointIndex | src/fontra/client/core/var-path.js:128-137 | `getContourAndPointIndex` succeeds exactly for an index inside the path, giving its contour and its offset from the contour's start |
| VarPath.VarPackedPath.IsStartOrEndPoint | src/fontra/client/core/var-path.js:341-357 | `isStartOrEndPoint` raises outside the path; otherwise -1 exactly for the first point of an open contour, 1 for the last point of an open contour of two or more points, 0 otherwise |
| VarPath.VarPackedPath.ControlBoundsOf | src/fontra/client/core/var-path.js:75-94 | `_getControlBounds` gives none exactly for an empty range, and otherwise the bounds of the range's points |
| VarPath.VarPackedPath.GetControlBounds | src/fontra/client/core/var-path.js:65-67 | `getControlBounds` gives none exactly for a path without points, and otherwise the bounds of all its points |
| VarPath.VarPackedPath.GetControlBoundsForContour | src/fontra/client/core/var-path.js:69-73 | `getControlBoundsForContour` raises for a bad contour index; otherwise none exactly for an empty contour, else the bounds of its points |
| VarPath.VarPackedPath.PointsFromTo | src/fontra/client/core/var-path.js:389-393 | `_iterPointsFromTo` yields each point from start to end, as `getPoint` reads it |
| VarPath.VarPackedPath.IterPoints | src/fontra/client/core/var-path.js:379-381 | `iterPoints` yields every point in order, as `getPoint` reads it |
| VarPath.VarPackedPath.IterContours | src/fontra/client/core/var-path.js:395-399 | `iterContours` yields exactly the contour list |
| VarPath.VarPackedPath.UnpackedContourAt | src/fontra/client/core/var-path.js:143-149 | `_getUnpackedContour` is the contour, unpacked |
| VarPath.VarPackedPath.GetUnpackedContour | src/fontra/client/core/var-path.js:139-141 | `getUnpackedContour` raises for a bad contour index and otherwise gives the contour, unpacked |
| VarPath.VarPackedPath.IterUnpackedContours | src/fontra/client/core/var-path.js:401-405 | `iterUnpackedContours` yields every contour, unpacked, in order |
| VarPath.VarPackedPath.SetUnpackedContour | src/fontra/client/core/var-path.js:151-153 | `setUnpackedContour` replaces the contour with the packed form of the unpacked one, failing without change for a bad index |
| VarPath.VarPackedPath.AppendUnpackedContour | src/fontra/client/core/var-path.js:155-157 | `appendUnpackedContour` appends the packed form of the contour |
| VarPath.VarPackedPath.InsertUnpackedContour | src/fontra/client/core/var-path.js:159-161 | `insertUnpackedContour` inserts the packed form at the normalised index, failing without change for a bad index |
| VarPath.VarPackedPath.FromUnpackedContours | src/fontra/client/core/var-path.js:38-44 | `fromUnpackedContours` is a new well-formed path whose contour list is the packed contours in order |
| VarPath.VarPackedPath.IterHandles | src/fontra/client/core/var-path.js:407-435 | `iterHandles` yields the coordinates of the handles of every contour in order |
| VarPath.VarPackedPath.IterPointsInRect | src/fontra/client/core/var-path.js:437-443 | `iterPointsInRect` yields exactly the points the rectangle test accepts, in order, each with its index |
| VarPath.VarPackedPath.FirstPointIndexNearPoint | src/fontra/client/core/var-path.js:359-377 | `firstPointIndexNearPoint` gives the first point near the given point other than the skipped index, or none when every near point is the skipped one |
| VarPath.VarPackedPath.Copy | src/fontra/client/core/var-path.js:445-453 | `copy` is a path over new containers with the same contents |
| VarPath.VarPackedPath.AppendPointToLastContour | src/fontra/client/core/var-path.js:455-459 | `_appendPoint` raises without change when there is no contour, and otherwise appends the point to the last contour |
| VarPath.VarPackedPath.MoveTo | src/fontra/client/core/var-path.js:461-464 | `moveTo` appends an open contour holding one on-curve point and changes no other contour |
| VarPath.VarPackedPath.LineTo | src/fontra/client/core/var-path.js:466-468 | `lineTo` raises without change when there is no contour, and otherwise appends an on-curve point to the last contour |
| VarPath.VarPackedPath.CubicCurveTo | src/fontra/client/core/var-path.js:470-474 | `cubicCurveTo` raises without change when there is no contour, and otherwise appends two cubic off-curve points and an on-curve point |
| VarPath.VarPackedPath.QuadraticCurveTo | src/fontra/client/core/var-path.js:476-486 | `quadraticCurveTo` raises without change for an odd argument count or when there is no contour, and otherwise appends quad off-curve points and a final on-curve point |
| VarPath.VarPackedPath.ClosePath | src/fontra/client/core/var-path.js:488-490 | `closePath` raises without change when there is no contour, and otherwise closes the last contour and changes nothing else |
| VarPath.VarPackedPath.EnsureCompatibility | src/fontra/client/core/var-path.js:522-529 | `_ensureCompatibility` passes exactly for paths with the same contour list and the same point types up to the smooth flag |
| VarPath.VarPackedPath.WithCoordinates | src/fontra/client/core/var-path.js:492-537 | the path the arithmetic returns has new coordinates and shares this path's point types and contour list |
| VarPath.VarPackedPath.CombineItemwise | src/fontra/client/core/var-path.js:492-520 | `addItemwise`/`subItemwise` with a path raise for incompatible paths, and otherwise combine the coordinates pairwise into a new path sharing the structure |
| VarPath.VarPackedPath.CombineItemwiseArray | src/fontra/client/core/var-path.js:492-520 | `addItemwise`/`subItemwise` with an array raise for a length mismatch, and otherwise combine the coordinates pairwise into a new path sharing the structure |
| VarPath.VarPackedPath.MulScalar | src/fontra/client/core/var-path.js:531-537 | `mulScalar` is a new path with every coordinate scaled, keeping well-formedness |
| VarPath.VarPackedPath.AddItemwise | src/fontra/client/core/var-path.js:492-505 | `addItemwise` succeeds exactly for a compatible path with as many coordinates, and gives a new coordinate list of the pairwise sums, keeping the point types and contours |
| VarPath.VarPackedPath.SubItemwise | src/fontra/client/core/var-path.js:507-520 | `subItemwise` succeeds exactly for a compatible path with as many coordinates, and gives a new coordinate list of the pairwise differences, keeping the point types and contours |
| VarPath.VarPackedPath.Transformed | src/fontra/client/core/var-path.js:717-725 | `transformed` maps every point by the transformation and shares the structure |
| VarPath.VarPackedPath.GetContourSegmentPointIndices | src/fontra/client/core/var-path.js:539-555 | `getContourSegmentPointIndices` raises for a bad contour index, and otherwise gives the contour's closedness and its segments (or the segment iterator's error) |
| VarPath.VarPackedPath.DrawToPath2d | src/fontra/client/core/var-path.js:652-660 | `drawToPath2d` draws `PathDrawing.PathOps`, which draws a blob contour from the corrected implied point (see Findings) |
| VarPath.VarPackedPath.DrawContourToPath2d | src/fontra/client/core/var-path.js:662-667 | `drawContourToPath2d` raises for a bad contour index and otherwise draws that contour (blob point corrected as above) |
| VarPath.VarPackedPath.Concat | src/fontra/client/core/var-path.js:727-739 | `concat` is a new path whose contour list is this path's then the other's, well formed when both are |
| VarPath.VarPackedPath.CheckIntegrity | src/fontra/client/core/var-path.js:741-760 | `_checkIntegrity` reports a problem exactly when the path is not well formed |
| VarPath.QuadTypes | src/fontra/client/core/var-path.js:476-486 | the point types `quadraticCurveTo` appends are quad off-curve points then one on-curve point |
| EditBehavior.DecimalRoundTrip | src/fontra/client/editor/edit-behavior.js:130-144 | reading back the decimal digits a selection key is written with gives the index |
| EditBehavior.NumberOf | src/fontra/client/editor/edit-behavior.js:130-144 | `Number(index)` on the index part of a selection key is a number exactly when the part is present and all decimal digits (the form the program writes) |
| EditBehavior.SplitJoin | src/fontra/client/editor/edit-behavior.js:130-144 | joining the pieces of `split("/")` gives the string back |
| EditBehavior.JoinSplit | src/fontra/client/editor/edit-behavior.js:130-144 | pieces without the separator, joined, split back into themselves |
| EditBehavior.ParseSelectionKey | src/fontra/client/editor/edit-behavior.js:130-144 | a selection key `type/index` whose type has no slash splits back into that type and index |
| EditBehavior.SortIndices | src/fontra/client/editor/edit-behavior.js:138-142 | `indices.sort((a, b) => a - b)` is a permutation of the indices |
| EditBehavior.SortIndicesAscending | src/fontra/client/editor/edit-behavior.js:138-142 | on numbers only, the sorted indices are ascending |
| EditBehavior.TypesOfAre | src/fontra/client/editor/edit-behavior.js:130-144 | a type gets a group exactly when some selection item has that type |
| EditBehavior.IndicesOfTypeAre | src/fontra/client/editor/edit-behavior.js:130-144 | an index is in a type's group exactly when some item of that type carries it |
| EditBehavior.UnlistedTypeHasNoIndices | src/fontra/client/editor/edit-behavior.js:130-144 | a type no item has has no indices |
| EditBehavior.SplitSelectionByType | src/fontra/client/editor/edit-behavior.js:130-144 | `splitSelectionByType` has one group per type present, holding the sorted indices of that type's items |
| EditBehavior.SortGroups | src/fontra/client/editor/edit-behavior.js:138-142 | the loop sorts every group and keeps the set of types |
| EditBehavior.AdvanceFindsContour | src/fontra/client/editor/edit-behavior.js:147-163 | from a contour starting at or before a point of the path, the `while` loop stops at the contour holding that point |
| EditBehavior.SplitErrorSticks | src/fontra/client/editor/edit-behavior.js:147-163 | once the loop has raised (an index past the last contour), the whole call raises |
| EditBehavior.SplitPointSelectionByContour | src/fontra/client/editor/edit-behavior.js:147-163 | the loop of `splitPointSelectionByContour` computes `SplitResult`: the per-contour lists, or the error of an index past the last contour |
| EditBehavior.SplitByContourIsFilter | src/fontra/client/editor/edit-behavior.js:147-163 | on sorted point indices inside the path, the result has one entry per contour: `undefined` exactly when no selected point lies in it, otherwise its selected points in order |
| EditBehavior.ClosedNeighborWraps | src/fontra/client/editor/edit-behavior.js:243-254 | in a closed contour a neighbour index before the start continues from the end and one past the end from the start |
| EditBehavior.ClassAt | src/fontra/client/editor/edit-behavior.js:252-262 | the class of a contour point is missing exactly outside the contour; otherwise on-curve exactly when the point has no type, and selected as marked (corrected reading, see Findings) |
| EditBehavior.WalkStaysFailed | src/fontra/client/editor/edit-behavior.js:243-269 | once a key is absent the tree walk stays failed, so stopping at the first miss loses nothing |
| EditBehavior.FindPointMatch | src/fontra/client/editor/edit-behavior.js:243-269 | `findPointMatch` (corrected, see Findings) walks the tree with the classes of the neighbours at offsets -2..2; the neighbours it pushes are a prefix of the window; a match needs all five; a shorter walk matches nothing |
| EditBehavior.ClosedWindowInContour | src/fontra/client/editor/edit-behavior.js:243-269 | in a closed contour every neighbour exists, and the middle one is the point itself |
| EditBehavior.OpenWindowMissing | src/fontra/client/editor/edit-behavior.js:243-269 | in an open contour the neighbour at an offset is missing exactly when the offset leaves the contour |
| EditBehavior.ClassAtAsWritten | src/fontra/client/editor/edit-behavior.js:252-262 | as written, classing an index outside the contour raises (`DOESNT_EXIST` is not imported) and a present point is never on-curve (`point.type === 0` never holds) |
| EditBehavior.FindPointMatchAsWritten | src/fontra/client/editor/edit-behavior.js:252-262 | defines `findPointMatch` as written, with the classes `ClassAtAsWritten` gives; `AsWrittenOpenStartRaises` and `AsWrittenMissesOnCurve` show where it fails (see Findings) |
| EditBehavior.AsWrittenOpenStartRaises | src/fontra/client/editor/edit-behavior.js:243-269 | as written, matching the first point of any open contour raises, whatever the tree |
| EditBehavior.AsWrittenMissesOnCurve | src/fontra/client/editor/edit-behavior.js:243-269 | as written, a rule asking for on-curve points never matches five selected on-curve points of a closed contour, which the corrected classes match |
| EditBehavior.MakeContourPointEditFuncs | src/fontra/client/editor/edit-behavior.js:194-240 | the loops of `makeContourPointEditFuncs` compute `ContourEditFuncs`: the marked points, then one edit func per matched point (corrected matching) |
| EditBehavior.ContourFuncsShape | src/fontra/client/editor/edit-behavior.js:206-239 | the matching loop puts transform funcs only for non-constraining rules and constrain funcs only for constraining ones; each edits its own matched point, the middle of its neighbours |
| EditBehavior.MakePointEditFuncs | src/fontra/client/editor/edit-behavior.js:166-191 | the loop of `makePointEditFuncs` computes `PointEditFuncs` contour by contour, built on the corrected `findPointMatch` |
| EditBehavior.ContourEditFuncsOrdered | src/fontra/client/editor/edit-behavior.js:194-240 | a contour's transform funcs all come before its constrain funcs; every func's point is a participating point; the participating points ascend within the contour |
| EditBehavior.PointEditFuncsShape | src/fontra/client/editor/edit-behavior.js:166-191 | the participating points of a path are ascending indices of the path and include every edit func's point |
| EditBehavior.PointFuncsOk | src/fontra/client/editor/edit-behavior.js:166-191 | a selection whose entries lie in their contours raises nothing |
| EditBehavior.EditFuncsOfSplitSelection | src/fontra/client/editor/edit-behavior.js:147-191 | on the point selection split by contour from sorted indices of the path, `makePointEditFuncs` raises nothing |
| EditBehavior.PointChange | src/fontra/client/editor/edit-behavior.js:117-119 | `makePointChange` sets point k to (x, y) |
| EditBehavior.ComponentOriginChange | src/fontra/client/editor/edit-behavior.js:122-127 | `makeComponentOriginChange` sets `x` and `y` under `[componentIndex, "transformation"]` |
| EditBehavior.RollbackChange | src/fontra/client/editor/edit-behavior.js:78-102 | `makeRollbackChange` is a group with a `["path"]` group of one change per participating point and a `["components"]` group of one change per selected component |
| EditBehavior.RunEditFuncs | src/fontra/client/editor/edit-behavior.js:58-73 | calling the edit funcs gives one point change per func, on the func's absolute point; a transform func's point is the action applied to the original points |
| EditBehavior.NewEditBehavior | src/fontra/client/editor/edit-behavior.js:35-47 | the `EditBehavior` constructor (on the corrected `findPointMatch`) stores funcs within the path, one origin per selected component, and the path's positions as originals |
| EditBehavior.ChangeForTransform | src/fontra/client/editor/edit-behavior.js:58-73 | `makeChangeForTransformFunc` is a group holding the point group only when there are edit funcs and the component group only when components are selected |
| EditBehavior.ChangeForDeltaMoves | src/fontra/client/editor/edit-behavior.js:49-56 | a drag by delta moves a "Move" func's point by the constrained delta, leaves a "DontMove" func's point where it was, and moves each selected component's origin by the delta |
| EditBehavior.SetAllXYRestores | src/fontra/client/editor/edit-behavior.js:78-102 | point changes that put points back where they were restore every point they write and leave the rest |
| EditBehavior.PathGroupEffect | src/fontra/client/editor/edit-behavior.js:58-73 | a group of point changes under `["path"]` moves those points and changes nothing else |
| EditBehavior.ComponentGroupEffect | src/fontra/client/editor/edit-behavior.js:58-73 | a group of origin changes under `["components"]` moves those origins and changes nothing else |
| EditBehavior.ChangeThenRollbackRestores | src/fontra/client/editor/edit-behavior.js:35-102 | applying an edit behaviour's change for any transform, then its rollback change, gives back the glyph instance exactly (whatever the floating-point actions compute) |
| SceneController.ReversedIndexInvolution | src/fontra/views/editor/scene-controller.js:1159-1179 | the new index of a point lies in the same contour, and mapping it again gives the original point back |
| SceneController.ReversedSelectionIs | src/fontra/views/editor/scene-controller.js:1159-1179 | `reversePointSelection` raises exactly when a selected point lies outside the path, and otherwise returns the new index of each selected point and nothing else |
| SceneController.ReversePointSelection | src/fontra/views/editor/scene-controller.js:1159-1179 | the loop over the selection returns the reversed selection, or the TypeError of the first point outside the path |
| SceneController.SelectedContoursAre | src/fontra/views/editor/scene-controller.js:1181-1187 | the contours listed are exactly those of the selected points, each listed once |
| SceneController.GetSelectedContours | src/fontra/views/editor/scene-controller.js:1181-1187 | the loop returns the contour of each selected point once, in the order first seen |
| SceneController.ReversedContourTwice | src/fontra/views/editor/scene-controller.js:955-979 | reversing a contour twice gives it back |
| SceneController.ReversedContour | src/fontra/views/editor/scene-controller.js:965-970 | a reversed contour has as many points as the contour and the same closedness; `ReversedContourAt` states where its points go |
| SceneController.ReversedContourAt | src/fontra/views/editor/scene-controller.js:965-970 | point `j` of a contour becomes point `ReversedRelative(j)` of the reversed one: the mirror index, shifted by one in a closed contour so that the start point stays first |
| SceneController.ReversedContourCanonical | src/fontra/views/editor/scene-controller.js:955-979 | a reversed contour holds only valid point types when the contour does |
| SceneController.ReverseSelectedContoursDirection | src/fontra/views/editor/scene-controller.js:955-979 | each contour holding a selected point is reversed in place and no other contour changes; the result is the reversed point selection; a point outside the path raises and leaves the path unchanged |
| SceneController.ReversedPointsAgree | src/fontra/views/editor/scene-controller.js:955-979 | after the reversal, the point at the new index of each selected point has that point's coordinates and type, so the new selection selects the same points |
| SceneController.StartPointChoicesFit | src/fontra/views/editor/scene-controller.js:981-1020 | the first loop of `setStartPoint` records only points of the path, at most one per contour |
| SceneController.StartPointChoicesFirst | src/fontra/views/editor/scene-controller.js:981-1020 | the offset recorded for a contour is that of its first selected point |
| SceneController.StartChoices | src/fontra/views/editor/scene-controller.js:981-1020 | the first loop returns the recorded entries, or raises TypeError exactly when a selected point lies outside the path |
| SceneController.RotatedContourInverse | src/fontra/views/editor/scene-controller.js:981-1020 | rotating a contour by `k` points and then by the remaining points gives it back |
| SceneController.RotatedPackedStart | src/fontra/views/editor/scene-controller.js:981-1020 | a contour rotated by `k` starts with its former point `k` |
| SceneController.ApplyStartChoices | src/fontra/views/editor/scene-controller.js:981-1020 | the second loop rotates the closed contours recorded at a non-zero offset and selects the new start points |
| SceneController.SetStartPoint | src/fontra/views/editor/scene-controller.js:981-1020 | every closed contour whose first selected point is not its start is rotated to start there, and the start points are selected (open contours only when their first selected point is already the start); a point outside the path raises and leaves the path unchanged |
| SceneController.RotatedContour | src/fontra/views/editor/scene-controller.js:1008-1010 | moving the first points of a contour to its end keeps its length and closedness; `RotatedContourAt` states where each point goes |
| SceneController.RotatedContourAt | src/fontra/views/editor/scene-controller.js:1008-1010 | point `j` of the rotated contour is point `j + k` of the contour, counted round its end |
| SceneController.NewStartHoldsSelected | src/fontra/views/editor/scene-controller.js:981-1020 | after `setStartPoint`, the start of each closed contour holds the point that was its first selected point |
| SceneController.ArrowNudge | src/fontra/views/editor/scene-controller.js:414-425 | the arrow keys move nothing when no glyph is being edited or the selection is empty |
| SceneController.ArrowNudgeScales | src/fontra/views/editor/scene-controller.js:414-425 | otherwise the move is the key's unit delta times 1, 10 (shift) or 100 (shift with meta or control) |
| SceneController.StartOrEndMeans | src/fontra/views/editor/scene-controller.js:1108-1123 | `isStartOrEndPoint` is non-zero exactly at the first and last points of an open contour |
| SceneController.ConnectSource | src/fontra/views/editor/scene-controller.js:1108-1123 | the detector gets a source point only for a single selected point that is the start or end of an open contour; a selected point outside the path raises |
| SceneController.ConnectSourceOfEnd | src/fontra/views/editor/scene-controller.js:1108-1123 | a single selected start or end point of an open contour becomes the source point |
| SceneController.ConnectSourceOf | src/fontra/views/editor/scene-controller.js:1108-1123 | the constructor's test on the selection computes that source point |
| SceneController.NewPathConnectDetector | src/fontra/views/editor/scene-controller.js:1098-1123 | a new detector over the same path, with that source point, or the constructor's error |
| SceneController.ShouldConnectValue | src/fontra/views/editor/scene-controller.js:1125-1152 | with the target known, connect exactly when it is a different start or end point of an open contour; a target outside the path raises |
| SceneController.ShouldConnectAsWritten | src/fontra/views/editor/scene-controller.js:1125-1152 | as written, `shouldConnect` returns false without a source point and otherwise raises, because `pointIndexNearPoint` is not a method of the path |
| SceneController.PathConnectDetector.ShouldConnect | src/fontra/views/editor/scene-controller.js:1125-1152 | corrected: the target is the first point near the given position other than the source, found by `firstPointIndexNearPoint`; it is stored, and the decision is that of `ShouldConnectValue` |
| SceneController.IndexOf | src/fontra/views/editor/scene-controller.js:678-691 | `indexOf` returns the first index holding the element, or -1 when it is absent |
| SceneController.EditingLayerNames | src/fontra/views/editor/scene-controller.js:678-691 | the editing layer names are a reordering of the layer names |
| SceneController.MovedToFrontPermutes | src/fontra/views/editor/scene-controller.js:678-691 | moving an element to the front only reorders the list |
| SceneController.EditingLayerNamesOrder | src/fontra/views/editor/scene-controller.js:678-691 | the primary layer, when it is set and is an editing layer, comes first; the other layers keep their order |
| SceneController.EditingLayerNamesUnchanged | src/fontra/views/editor/scene-controller.js:678-691 | without a primary layer among the editing layers, or when it is already first, the order is unchanged |
| SceneController.MergedAnchorsProps | src/fontra/views/editor/scene-controller.js:1080-1086 | merging keeps the existing anchors first and unchanged, gives every decomposed anchor's name an anchor, adds only decomposed anchors, and keeps anchor names distinct |
| SceneController.MergeAnchors | src/fontra/views/editor/scene-controller.js:1080-1086 | the anchor loop appends a decomposed anchor only when no anchor so far has its name |
| SceneController.DeletedDescendingKeeps | src/fontra/views/editor/scene-controller.js:1089-1091 | deleting an ascending list of selected indices, last first, removes exactly those components and keeps the others in order |
| SceneController.DeleteComponents | src/fontra/views/editor/scene-controller.js:1089-1091 | the component loop calls `splice(i, 1)` for each selected index, last first |
| PenTool.AppendIndicesAt | src/fontra/views/editor/edit-tools-pen.js:208-228 | a negative point index raises; a start or end point of an open contour extends that contour (appending at its end, or inserting at its front) and every other point starts a new contour |
| PenTool.AppendIndicesExtendIff | src/fontra/views/editor/edit-tools-pen.js:208-228 | the pen extends a contour exactly when the selected point is the first or last point of an open contour |
| PenTool.AppendIndicesOf | src/fontra/views/editor/edit-tools-pen.js:208-228 | anything but a single selected item starts a new contour; only a single negative index raises |
| PenTool.AppendIndicesFit | src/fontra/views/editor/edit-tools-pen.js:208-228 | the indices found name a contour of the path and a position within it |
| PenTool.ApplyChange | src/fontra/views/editor/edit-tools-pen.js:231-269 | applying one of the pen's path changes keeps every contour well formed |
| PenTool.ApplyChanges | src/fontra/views/editor/edit-tools-pen.js:231-269 | applying a list of changes keeps every contour well formed |
| PenTool.UndoStep | src/fontra/views/editor/edit-tools-pen.js:231-269 | each recorded rollback change undoes the edit change recorded with it |
| PenTool.RollbackUndoesEdit | src/fontra/views/editor/edit-tools-pen.js:75-203 | applying the edit changes and then the rollback changes in reverse order restores the contours |
| PenTool.RecordInserts | src/fontra/views/editor/edit-tools-pen.js:126-131 | the drag loop records one point deletion and one point insertion per inserted point, in order |
| PenTool.DeletePoints | src/fontra/views/editor/edit-tools-pen.js:247-253 | one `deletePoint` change per inserted index, in order |
| PenTool.InsertPoints | src/fontra/views/editor/edit-tools-pen.js:255-261 | one `insertPoint` change per inserted index and point, in order |
| PenTool.DragPlanOf | src/fontra/views/editor/edit-tools-pen.js:135-172 | a drag inserts two points into a new contour and three into an existing one, all at the front when prepending, and has an incoming handle exactly when the contour already existed |
| PenTool.OppositeHandle | src/fontra/views/editor/edit-tools-pen.js:284-288 | the opposite handle is the reflection of the handle through the anchor |
| PenTool.OppositeHandleInvolution | src/fontra/views/editor/edit-tools-pen.js:284-288 | reflecting twice gives the handle back |
| PenTool.HandleMoves | src/fontra/views/editor/edit-tools-pen.js:186-199 | an incremental change moves the outgoing handle to the pointer and, when there is an incoming handle, moves it to the reflected position first |
| PenTool.PointAdder.StartDragging | src/fontra/views/editor/edit-tools-pen.js:112-133 | starting a drag drops the last recorded change of each list, records the point deletions and insertions of the drag plan and selects the outgoing handle |
| PenTool.PointAdder.RollbackChange | src/fontra/views/editor/edit-tools-pen.js:178-180 | the rollback change holds one change per recorded rollback change |
| PenTool.PointAdder.IncrementalChange | src/fontra/views/editor/edit-tools-pen.js:186-199 | the incremental change replaces the move changes with the handle moves and changes nothing else |
| PenTool.PointAdder.FinalChange | src/fontra/views/editor/edit-tools-pen.js:201-203 | the final change is the edit changes followed by the move changes |
| PenTool.NewPointAdder | src/fontra/views/editor/edit-tools-pen.js:75-110 | a point adder exists exactly when the append indices can be found, and starts a new contour exactly when they say so |
| PenTool.ClickRoundTrip | src/fontra/views/editor/edit-tools-pen.js:75-110 | the click's edit changes apply to the contours, and its rollback changes restore them |
| PenTool.DraggedContour | src/fontra/views/editor/edit-tools-pen.js:112-172 | a dragged contour is well formed and holds two or three more points |
| PenTool.DraggedHandles | src/fontra/views/editor/edit-tools-pen.js:135-172 | after a drag the outgoing handle, and any incoming handle, are cubic off-curve points with a smooth on-curve point between them |
| PenTool.DragInserts | src/fontra/views/editor/edit-tools-pen.js:112-133 | the drag's insertions change only the dragged contour, into the dragged contour |
| PenTool.DragRoundTrip | src/fontra/views/editor/edit-tools-pen.js:75-203 | after a drag, the edit changes insert the dragged points into the contour, and the rollback changes restore the contours |
| PointerTool.BehaviorName | src/fontra/views/editor/edit-tools-pointer.js:353-356 | the behaviour is "default", "constrain" (shift), "alternate" (alt) or "alternate-constrain" (both), one name per combination of keys |
| PointerTool.BehaviorNameInjective | src/fontra/views/editor/edit-tools-pointer.js:353-356 | different key combinations give different behaviour names |
| PointerTool.SelectModeOf | src/fontra/views/editor/edit-tools-pointer.js:414-422 | shift with the command key subtracts, shift alone toggles, the command key alone adds, and no key replaces the selection |
| PointerTool.SelectModeMembership | src/fontra/views/editor/edit-tools-pointer.js:410-422 | what each mode's new selection contains: the new items, the union, the difference, or the items in exactly one of the two sets |
| PointerTool.SymmetricDifferenceTwice | src/fontra/views/editor/edit-tools-pointer.js:414-422 | toggling the same items twice with shift gives the selection back |
| PointerTool.NeighborIndices | src/fontra/views/editor/edit-tools-pointer.js:358-383 | in a closed contour the neighbours wrap round its ends; in an open contour the first point has no previous point and the last has no next one |
| PointerTool.NeighborPoints | src/fontra/views/editor/edit-tools-pointer.js:358-383 | `neighborPoints` raises exactly for an index outside the path |
| PointerTool.ClosedNeighbors | src/fontra/views/editor/edit-tools-pointer.js:358-383 | in a closed contour, the previous point of the start is the last point and the next point of the last is the start |
| PointerTool.OpenNeighbors | src/fontra/views/editor/edit-tools-pointer.js:358-383 | in an open contour, the start has no previous point, the last point has no next point, and the others have both |
| PointerTool.NeighborPointsAt | src/fontra/views/editor/edit-tools-pointer.js:358-383 | each neighbour point returned is the point at its neighbour index, and is present exactly when the index is |
| PointerTool.NeighborsInContour | src/fontra/views/editor/edit-tools-pointer.js:358-383 | both neighbours lie in the contour of the point |
| PointerTool.NeighborsMutual | src/fontra/views/editor/edit-tools-pointer.js:358-383 | a point is the previous neighbour of its next neighbour |
| PointerTool.SetPosition | src/fontra/views/editor/edit-tools-pointer.js:234-254 | `setPointPosition` moves one point and no other, and keeps the point types and contours |
| PointerTool.AlignNeighbors | src/fontra/views/editor/edit-tools-pointer.js:234-254 | aligning the handles of a point turned smooth moves only its off-curve neighbours, and keeps the point types and contours |
| PointerTool.AlignHandlesInPlace | src/fontra/views/editor/edit-tools-pointer.js:234-254 | the alignment is done in place on the path's coordinates |
| PointerTool.ToggleOne | src/fontra/views/editor/edit-tools-pointer.js:213-256 | one pass of the double-click loop raises exactly for an index outside the path, and keeps the path well formed |
| PointerTool.ToggleOneChanges | src/fontra/views/editor/edit-tools-pointer.js:213-256 | only the clicked point's type changes: smooth becomes on-curve, on-curve becomes smooth exactly when a neighbour is an off-curve point, and other types stay; only a point turned smooth moves neighbours |
| PointerTool.ToggleOneKeepsMaskedTypes | src/fontra/views/editor/edit-tools-pointer.js:213-256 | toggling never changes which points are on-curve and which are off-curve |
| PointerTool.ToggleOneTypes | src/fontra/views/editor/edit-tools-pointer.js:213-256 | the new point types do not depend on the coordinates or on how the handles are aligned |
| PointerTool.ToggleTwice | src/fontra/views/editor/edit-tools-pointer.js:213-256 | toggling an on-curve or smooth point with an off-curve neighbour twice restores the point types |
| PointerTool.ToggleAll | src/fontra/views/editor/edit-tools-pointer.js:210-259 | the double-click on points keeps the path well formed |
| PointerTool.ToggleAllKeeps | src/fontra/views/editor/edit-tools-pointer.js:210-259 | the contours and the on-curve/off-curve split stay the same; the loop completes exactly when every index lies in the path, and otherwise raises at the first index outside it |
| PointerTool.ToggleAllTypes | src/fontra/views/editor/edit-tools-pointer.js:210-259 | the resulting point types and outcome do not depend on the coordinates or on the handle alignment |
| PointerTool.HandlePointsDoubleClick | src/fontra/views/editor/edit-tools-pointer.js:210-259 | the loop over the selected points changes the path as `ToggleAll` says: point types toggled and neighbouring handles aligned, stopping at the first index outside the path |
| PointerTool.ContourOnCurveSelection | src/fontra/views/editor/edit-tools-pointer.js:194-204 | double-clicking a contour selects exactly its on-curve points; a contour index outside the path raises |
| VarGlyph.CopyComponent | src/fontra/client/core/var-glyph.js:81-87 | `copyComponent` raises exactly for a missing component; the copy has exactly a name, a location and a transformation holding the nine identity fields overridden by the component's own |
| VarGlyph.CopyComponentIdempotent | src/fontra/client/core/var-glyph.js:81-87 | copying a copied component gives the same copy |
| VarGlyph.CopyComponents | src/fontra/client/core/var-glyph.js:56-57 | a missing component list copies to an empty list; a list copies element by element, and raises exactly when some component is missing |
| VarGlyph.CopyComponentsIdempotent | src/fontra/client/core/var-glyph.js:56-57 | copying a copied component list gives the same list |
| VarGlyph.CopyCustomData | src/fontra/client/core/var-glyph.js:89-91 | the copy of custom data is JSON data and truthy; JSON data is copied unchanged and missing data becomes an empty object |
| VarGlyph.SourceFromObject | src/fontra/client/core/var-glyph.js:34-42 | `Source.fromObject` raises exactly for a missing object and otherwise takes over the name and layer name, copies the location and custom data, and turns `inactive` into a boolean |
| VarGlyph.SourceCopyIsEqual | src/fontra/client/core/var-glyph.js:34-42 | rebuilding a source from a source gives the same source |
| VarGlyph.SourcesFromObject | src/fontra/client/core/var-glyph.js:11 | the sources are rebuilt one by one, and the rebuild raises exactly when the sources are not a list or one of them is missing |
| VarGlyph.AxesFromObject | src/fontra/client/core/var-glyph.js:7-10 | a missing axis list becomes an empty list; otherwise every axis is copied field by field |
| VarGlyph.StaticGlyph.FromObject | src/fontra/client/core/var-glyph.js:46-62 | raises exactly when components must be copied and cannot be; takes over the advances and margins; without a path gives a fresh empty path; with `noCopy` shares path and components; otherwise copies the coordinates and shares the point types and contour list |
| VarGlyph.StaticGlyph.Copy | src/fontra/client/core/var-glyph.js:64-66 | a copy has fresh coordinates with the same path value, shares the point type and contour lists, and has copied components |
| VarGlyph.LayerFromObject | src/fontra/client/core/var-glyph.js:25-30 | `Layer.fromObject` succeeds exactly when the glyph is present and its components can be copied, and then rebuilds the glyph into fresh objects and copies the custom data |
| VarGlyph.LayersFromObject | src/fontra/client/core/var-glyph.js:12-14 | every layer is rebuilt under its own name; the whole fails exactly when some layer cannot be rebuilt |
| VarGlyph.RebuildLayers | src/fontra/client/core/var-glyph.js:12-14 | the loop over the layer entries rebuilds each one under its own name into fresh objects |
| VarGlyph.VariableGlyph.FromObject | src/fontra/client/core/var-glyph.js:4-17 | `VariableGlyph.fromObject` succeeds exactly when the axes, sources and layers can be read; the glyph keeps the name, copies the axes, sources and custom data, and rebuilds every layer into fresh objects |
| VarGlyph.VariableGlyph.Copy | src/fontra/client/core/var-glyph.js:19-21 | `copy` succeeds exactly when every layer holds a glyph whose components can be copied. The copy is a new object with the same name and axes, the sources rebuilt from their JSON form (equal to the originals, by `SourceCopyIsEqual`), the same layer names, and copied custom data. Each layer is a new glyph with the original's advances, margins, vertical origin, path value and copied components |
| DesignspaceNavigation.PutKeys | src/fontra/views/editor/panel-designspace-navigation.js:629-638 | `Object.fromEntries` setting a key keeps the other keys and adds that one |
| DesignspaceNavigation.PutValue | src/fontra/views/editor/panel-designspace-navigation.js:629-638 | after setting a key, it holds the new value and every other key keeps its value |
| DesignspaceNavigation.FromEntriesFacts | src/fontra/views/editor/panel-designspace-navigation.js:629-638 | an object built from entries has distinct keys, exactly the keys of the entries, and for each key the value of its last entry |
| DesignspaceNavigation.FromDistinctEntries | src/fontra/views/editor/panel-designspace-navigation.js:629-638 | entries with distinct keys build an object holding them in the same order |
| DesignspaceNavigation.SparseEntries | src/fontra/views/editor/panel-designspace-navigation.js:629-638 | at most one entry per axis |
| DesignspaceNavigation.MakeSparseLocation | src/fontra/views/editor/panel-designspace-navigation.js:629-638 | defines `makeSparseLocation`; `SparseLocationMeans` states which axes it keeps and with which values |
| DesignspaceNavigation.SparseEntriesAre | src/fontra/views/editor/panel-designspace-navigation.js:629-638 | each entry is a location value of an axis that is kept, and every kept axis has an entry |
| DesignspaceNavigation.SparseLocationMeans | src/fontra/views/editor/panel-designspace-navigation.js:629-638 | `makeSparseLocation` keeps exactly the axes the location gives a value other than the axis default, with the location's values |
| DesignspaceNavigation.AxisInfoKeys | src/fontra/views/editor/panel-designspace-navigation.js:640-650 | the axis info has an entry for exactly the base names of the glyph's axes |
| DesignspaceNavigation.AxisInfoDistinct | src/fontra/views/editor/panel-designspace-navigation.js:640-650 | no base name has two entries |
| DesignspaceNavigation.AxisInfoFirst | src/fontra/views/editor/panel-designspace-navigation.js:640-650 | the entry for a base name is the first axis with that base name, renamed to it |
| DesignspaceNavigation.GetAxisInfoFromGlyph | src/fontra/views/editor/panel-designspace-navigation.js:640-650 | `getAxisInfoFromGlyph` lists those entries in order, and nothing for a missing glyph |
| DesignspaceNavigation.NameParts | src/fontra/views/editor/panel-designspace-navigation.js:652-661 | each axis of the location gives the part `name=value` |
| DesignspaceNavigation.SuggestedSourceName | src/fontra/views/editor/panel-designspace-navigation.js:652-661 | defines `suggestedSourceNameFromLocation`; `SuggestedNameIsDefault` and `SuggestedNameSplits` state what the name is |
| DesignspaceNavigation.SuggestedNameIsDefault | src/fontra/views/editor/panel-designspace-navigation.js:652-661 | the suggested source name is "default" exactly when the location is empty |
| DesignspaceNavigation.SuggestedNameSplits | src/fontra/views/editor/panel-designspace-navigation.js:652-661 | when names and values hold no comma, splitting the suggested name at commas gives back the `name=value` parts |
| DesignspaceNavigation.GlobalOnly | src/fontra/views/editor/panel-designspace-navigation.js:506-511 | the global axes kept are exactly those that no local axis shares a name with |
| DesignspaceNavigation.LocationAxes | src/fontra/views/editor/panel-designspace-navigation.js:506-518 | the dialog's axes are the mapped global axes, then a divider when both kinds are present, then the glyph's axes |
| DesignspaceNavigation.SourceLocations | src/fontra/views/editor/panel-designspace-navigation.js:462-471 | the taken locations are those of all sources, without the edited source's own location when it has a name |
| DesignspaceNavigation.ValidateInput | src/fontra/views/editor/panel-designspace-navigation.js:404-424 | an empty name warns, a name another source already has warns, and a taken location warns; at most two warnings, the location one last |
| DesignspaceNavigation.LocationWarningMeans | src/fontra/views/editor/panel-designspace-navigation.js:404-471 | the location warning appears exactly when some source has the edited location and it is not the edited source's own |
| DesignspaceNavigation.LayerUses | src/fontra/views/editor/panel-designspace-navigation.js:248-250 | no more sources use a layer than there are sources |
| DesignspaceNavigation.LayerUsesZero | src/fontra/views/editor/panel-designspace-navigation.js:248-250 | no source uses a layer exactly when the count is zero |
| DesignspaceNavigation.LayerUsesRemove | src/fontra/views/editor/panel-designspace-navigation.js:248-250 | removing a source lowers its layer's count by one and leaves the other counts alone |
| DesignspaceNavigation.RemovedLayerUnused | src/fontra/views/editor/panel-designspace-navigation.js:248-281 | when the removed source was the only user of its layer, no remaining source uses that layer, so deleting the layer is safe |
| DesignspaceNavigation.RemoveSource | src/fontra/views/editor/panel-designspace-navigation.js:234-285 | an index outside the source list raises; otherwise, once confirmed, the source is removed, and its layer is deleted exactly when no other source uses it and the box was left ticked |
| DesignspaceNavigation.NewSource | src/fontra/views/editor/panel-designspace-navigation.js:287-343 | a new source has the given name and layer name, is active and has empty custom data. Its location has exactly the keys of the entries, each with the value the entries give it |
| DesignspaceNavigation.AddSource | src/fontra/views/editor/panel-designspace-navigation.js:287-343 | the new source is appended; a new layer name gets a layer rebuilt from the instance, and existing layers stay; the rebuild raises exactly when the instance's components cannot be copied |
| DesignspaceNavigation.Repointed | src/fontra/views/editor/panel-designspace-navigation.js:385-389 | every source on the old layer is moved to the new one and the others are untouched |
| DesignspaceNavigation.RepointedUses | src/fontra/views/editor/panel-designspace-navigation.js:385-389 | afterwards no source uses the old layer, and the new layer has the uses of both |
| DesignspaceNavigation.EditSourceProperties | src/fontra/views/editor/panel-designspace-navigation.js:345-394 | an index outside the source list raises; otherwise the source gets the new location, name and layer name, and a layer name not in use renames the layer and moves every source on it |
| DesignspaceNavigation.RepointSources | src/fontra/views/editor/panel-designspace-navigation.js:385-389 | the loop moves the sources as `Repointed` says and changes nothing else |
| SelectionInfo.GetSelection | src/fontra/views/editor/panel-selection-info.js:243-256 | the point indices are the selected points; the component indices are those selected as a component, its origin or its centre, each once, in ascending order |
| SelectionInfo.SortedUnique | src/fontra/views/editor/panel-selection-info.js:249-255 | removing duplicates and sorting keeps exactly the same indices, each once, in strictly ascending order |
| SelectionInfo.DistinctPermutation | src/fontra/views/editor/panel-selection-info.js:249-255 | a reordering of a list without duplicates has no duplicates |
| SelectionInfo.Instance.Get | src/fontra/views/editor/panel-selection-info.js:338 | reading a property raises exactly on `undefined` and `null`, and a value read from the instance stays within it |
| SelectionInfo.Instance.GetNestedValue | src/fontra/views/editor/panel-selection-info.js:333-341 | the loop follows the path key by key as `NestedValue` says |
| SelectionInfo.Instance.NestedValueClosed | src/fontra/views/editor/panel-selection-info.js:333-341 | a value reached from the instance stays within it |
| SelectionInfo.Instance.NestedValueSnoc | src/fontra/views/editor/panel-selection-info.js:333-341 | following one more key reads that key from the value reached so far, and raises the invalid-path error when that value is `undefined` |
| SelectionInfo.Instance.InvalidPathMeans | src/fontra/views/editor/panel-selection-info.js:333-341 | the invalid-path error arises exactly when some proper prefix of the path leads to `undefined` |
| SelectionInfo.Instance.ValueIsParentKey | src/fontra/views/editor/panel-selection-info.js:333-348 | the value at a path is the last key of the value at its parent path |
| SelectionInfo.Instance.SetNestedValue | src/fontra/views/editor/panel-selection-info.js:343-348 | `setNestedValue` resolves the parent and sets its last key, changing only that property of that object; resolving errors propagate and a primitive parent raises |
| SelectionInfo.Instance.DeleteNestedValue | src/fontra/views/editor/panel-selection-info.js:350-355 | `deleteNestedValue` deletes the parent's last key and changes nothing else; `undefined` or `null` parents raise and other primitives are left alone |
| SelectionInfo.Instance.RecordSet | src/fontra/views/editor/panel-selection-info.js:324-328 | the atomic change sets the value and records a rollback that puts back the old value, or deletes the key when it was absent |
| SelectionInfo.Instance.ValueStream | src/fontra/views/editor/panel-selection-info.js:309-322 | each streamed value is recorded with a rollback to the value the stream started from; the path ends up holding the last value |
| SelectionInfo.Instance.StreamRecord | src/fontra/views/editor/panel-selection-info.js:312-321 | the stream loop records one change per value and leaves the last value set |
| SelectionInfo.Instance.RestoreAndSet | src/fontra/views/editor/panel-selection-info.js:313-320 | putting back the starting value and then setting a new one leaves the new value, with the rollback to the starting value |
| SelectionInfo.StreamRecords | src/fontra/views/editor/panel-selection-info.js:309-322 | one recorded change per streamed value, each setting that value and rolling back to the starting value |
| SelectionInfo.UndoLabel | src/fontra/views/editor/panel-selection-info.js:316-320 | defines the undo label of a selection-info edit; `UndoLabelNames` states what it names |
| SelectionInfo.UndoLabelNames | src/fontra/views/editor/panel-selection-info.js:316-320 | the undo label names the edited key and, below the top level, the key above it, separated by a dot |
| EditorText.UnitsLessIrreflexive | src/fontra/views/editor/editor.js:1152-1165 | `<` on strings (UTF-16 code units, in order) never holds between a string and itself |
| EditorText.UnitsLessTransitive | src/fontra/views/editor/editor.js:1152-1165 | `<` on strings is transitive |
| EditorText.UnitsLessTotal | src/fontra/views/editor/editor.js:1152-1165 | of two different strings exactly one is less than the other |
| EditorText.Compare | src/fontra/views/editor/editor.js:1152-1165 | `compare` gives 0 exactly for equal values, puts `undefined` last, and otherwise gives -1 exactly when the first value is less |
| EditorText.CompareAntisymmetric | src/fontra/views/editor/editor.js:1152-1165 | for a total order, swapping the arguments of `compare` flips the sign |
| EditorText.GlyphItemSortOrder | src/fontra/views/editor/editor.js:1124-1128 | `glyphItemSortFunc` puts an item first exactly when it has the smaller first code point, has one where the other has none, or has the same one and the smaller name; 0 only for the same first code point and name; swapping flips the sign |
| EditorText.SortsBeforeTransitive | src/fontra/views/editor/editor.js:1124-1128 | the order `glyphItemSortFunc` sorts by is transitive |
| EditorText.GlyphItemSort | src/fontra/views/editor/editor.js:1124-1128 | defines `glyphItemSortFunc`; `GlyphItemSortOrder` and `SortsBeforeTransitive` state the order it sorts by |
| EditorText.GlyphFilter | src/fontra/views/editor/editor.js:1131-1147 | an empty search passes every item; otherwise an item passes exactly when some search item is part of its name or is its first character |
| EditorText.Utf16 | src/fontra/views/editor/editor.js:1229 | a code point takes one UTF-16 unit below 0x10000 and two above |
| EditorText.CodePointAt | src/fontra/views/editor/editor.js:1221 | `codePointAt` reads the code point whose UTF-16 form starts at the index |
| EditorText.CodePointAtUtf16 | src/fontra/views/editor/editor.js:1221 | reading the code point at the start of its own UTF-16 form gives it back |
| EditorText.FindStop | src/fontra/views/editor/editor.js:1189-1191 | the search for the end of a glyph name finds the first slash or white space after the index, or none |
| EditorText.FirstMapped | src/fontra/views/editor/editor.js:1204-1209 | the character of a glyph name comes from the first of its code points that the character map sends back to that name |
| EditorText.NameCharacter | src/fontra/views/editor/editor.js:1204-1216 | a character found for a glyph name is never empty |
| EditorText.CharacterEntry | src/fontra/views/editor/editor.js:1219-1234 | a character maps to no entry exactly when its glyph name is empty; otherwise the entry keeps the character and the mapped name, or takes the suggested name and is marked undefined when the map has none |
| EditorText.NameEntry | src/fontra/views/editor/editor.js:1189-1234 | a `/name` gives no entry exactly when the name is empty, and otherwise an entry with the name and its character, not marked undefined |
| EditorText.Step | src/fontra/views/editor/editor.js:1181-1235 | each pass of the loop reads at least one unit and stays within the text |
| EditorText.ParseTextStep | src/fontra/views/editor/editor.js:1181-1235 | the entries of the text from an index are those of one pass followed by those from where the pass stopped |
| EditorText.ParseText | src/fontra/views/editor/editor.js:1181-1235 | defines the entries `glyphNamesFromText` makes, pass by pass; `GlyphNamesFromText`, `NoEmptyNames` and `TextRoundTrip` state what they are |
| EditorText.GlyphNamesFromText | src/fontra/views/editor/editor.js:1179-1238 | `glyphNamesFromText` returns the entries `ParseText` gives for the text |
| EditorText.NoEmptyNames | src/fontra/views/editor/editor.js:1229-1234 | no entry has an empty glyph name unless it is marked undefined |
| EditorText.NameRunsToStop | src/fontra/views/editor/editor.js:1189-1202 | `/name` reads up to the next slash or white space; a white space after it is skipped, a slash is not |
| EditorText.DoubleSlash | src/fontra/views/editor/editor.js:1184-1187 | "//" reads as the character "/" and its glyph |
| EditorText.StepCharacter | src/fontra/views/editor/editor.js:1219-1226 | any other unit reads as the character whose code point starts there, one or two units long |
| EditorText.SurrogatePair | src/fontra/views/editor/editor.js:1219-1226 | a surrogate pair reads as one character of two units |
| EditorText.Piece | src/fontra/views/editor/editor.js:1246-1253 | a glyph is written as at least one unit, starting with "/" when it has no character (corrected, see Findings) |
| EditorText.GlyphPiece | src/fontra/views/editor/editor.js:1246-1253 | the loop body writes one glyph as `Piece` says (corrected, see Findings) |
| EditorText.PieceAsWritten | src/fontra/views/editor/editor.js:1246-1253 | defines one glyph's text as the program writes it, the character "/" written bare; `SlashCharacterLost` shows what that loses (see Findings) |
| EditorText.LineTextAsWritten | src/fontra/views/editor/editor.js:1244-1255 | defines a glyph line's text as the program writes it, piece by piece (see Findings) |
| EditorText.TextFromGlyphLine | src/fontra/views/editor/editor.js:1244-1255 | the loop over one glyph line writes the line's pieces in order (corrected, see Findings) |
| EditorText.TextFromGlyphLines | src/fontra/views/editor/editor.js:1241-1259 | `textFromGlyphLines` writes the lines joined by line feeds (corrected, see Findings) |
| EditorText.SplitJoin | src/fontra/views/editor/editor.js:1170 | splitting lines that hold no line break, joined by line feeds, gives them back |
| EditorText.JoinSplit | src/fontra/views/editor/editor.js:1170 | joining the lines of a text without carriage returns gives the text back |
| EditorText.GlyphLinesOf | src/fontra/views/editor/editor.js:1168-1174 | one glyph line per line of the text |
| EditorText.GlyphLinesFromText | src/fontra/views/editor/editor.js:1168-1174 | the loop reads each line of the text into its glyph line |
| EditorText.StepReadsPiece | src/fontra/views/editor/editor.js:1179-1259 | the text written for a canonical entry reads back as that entry in one pass |
| EditorText.LineRoundTrip | src/fontra/views/editor/editor.js:1179-1259 | a glyph line of canonical entries, written and read back, gives the same line |
| EditorText.LineHasNoBreaks | src/fontra/views/editor/editor.js:1241-1259 | a written glyph line holds no line break |
| EditorText.TextRoundTrip | src/fontra/views/editor/editor.js:1168-1259 | glyph lines of canonical entries survive `textFromGlyphLines` followed by `glyphLinesFromText` |
| EditorText.SlashCharacterLost | src/fontra/views/editor/editor.js:1246-1250 | as written, the glyph that "//" reads as is written back as "/", which reads as nothing; written as "//" it reads back as itself |
| EditorText.StrictAgrees | src/fontra/views/editor/editor.js:1269-1277 | where the editor's `getNestedValue` succeeds it reads what the selection panel's reads, and never reads `undefined` |
| EditorText.StrictInvalidMeans | src/fontra/views/editor/editor.js:1269-1277 | the editor's `getNestedValue` raises the invalid-path error exactly when some non-empty prefix of the path reads `undefined` |
| EditorText.StrictNestedValueClosed | src/fontra/views/editor/editor.js:1269-1277 | a value reached from the instance stays within it |
| EditorText.GetNestedValue | src/fontra/views/editor/editor.js:1269-1277 | the loop follows the path as the strict walk says |
| EditorText.SetNestedValue | src/fontra/views/editor/editor.js:1280-1285 | the editor's `setNestedValue` sets the last key of the parent found by the strict walk, and changes nothing else |
| FontraBackend.StrLessIrreflexive | src/fontra/backends/fontra.py:195 | Python's `<` on strings, which `sorted` orders glyph names by, never holds between a string and itself |
| FontraBackend.StrLessTransitive | src/fontra/backends/fontra.py:195 | `<` on strings is transitive |
| FontraBackend.StrLessTotal | src/fontra/backends/fontra.py:195 | of two different strings one is less than the other |
| FontraBackend.GetPut | src/fontra/backends/fontra.py:189 | after a dictionary assignment the key holds the new value and every other key keeps its value |
| FontraBackend.PutNew | src/fontra/backends/fontra.py:189 | assigning a new key appends it at the end, as a Python dictionary keeps insertion order |
| FontraBackend.PutPut | src/fontra/backends/fontra.py:189 | assigning a key twice is the same as assigning the second value once |
| FontraBackend.SortedDistinct | src/fontra/backends/fontra.py:195 | a list sorted strictly by key has no key twice |
| FontraBackend.SortByKeyFacts | src/fontra/backends/fontra.py:195 | `sorted(d.items())` is sorted by key and holds the same entries, so each key has the same value |
| FontraBackend.Digits | src/fontra/backends/fontra.py:196 | the digits written for a number are digits of the base |
| FontraBackend.ValueOfDigits | src/fontra/backends/fontra.py:196 | reading back the digits written for a number gives the number |
| FontraBackend.LeadingZeros | src/fontra/backends/fontra.py:196 | leading zeros do not change a number's value |
| FontraBackend.StripStartIs | src/fontra/backends/fontra.py:246 | stripping removes exactly the leading white space |
| FontraBackend.StripEndIs | src/fontra/backends/fontra.py:249 | stripping removes exactly the trailing white space |
| FontraBackend.IndexOfIs | src/fontra/backends/fontra.py:248 | the first occurrence of a separator, if any, is found |
| FontraBackend.SplitJoin | src/fontra/backends/fontra.py:248 | splitting pieces that hold no separator, joined by it, gives them back |
| FontraBackend.JoinNoSpace | src/fontra/backends/fontra.py:196 | pieces without white space, joined by a separator other than white space, hold no white space |
| FontraBackend.ParseCodePoints | src/fontra/backends/fontra.py:244-254 | the loop of `_parseCodePoints` reads the cell as `CodePointsOf` says: empty after stripping gives no code points, otherwise each comma-separated entry, stripped and with an optional `U+`, is read by `int(s, 16)`, and the first entry that is not a hexadecimal integer raises |
| FontraBackend.ParseHex | src/fontra/backends/fontra.py:253 | defines `int(s, 16)` on ASCII text; `DigitsRead`, `MinusRead`, `PlusRead`, `HexPrefixRead`, `UnderscoreRead` and `MalformedHexRejected` state what it accepts and rejects |
| FontraBackend.DigitsRead | src/fontra/backends/fontra.py:253 | `int(s, 16)` reads a run of hexadecimal digits of either case as the number they spell |
| FontraBackend.MinusRead | src/fontra/backends/fontra.py:253 | `int(s, 16)` reads a leading `-` as a negative number |
| FontraBackend.PlusRead | src/fontra/backends/fontra.py:253 | `int(s, 16)` accepts a leading `+` |
| FontraBackend.HexPrefixRead | src/fontra/backends/fontra.py:253 | `int(s, 16)` accepts a `0x` or `0X` prefix, also followed by one underscore |
| FontraBackend.UnderscoreRead | src/fontra/backends/fontra.py:253 | `int(s, 16)` skips a single underscore between digits |
| FontraBackend.MalformedHexRejected | src/fontra/backends/fontra.py:253 | `int(s, 16)` raises on two underscores in a row, a leading or trailing underscore, and a bare `0x` |
| FontraBackend.PaddedHex | src/fontra/backends/fontra.py:196 | zero-padded hexadecimal digits are at least as long as the width and spell the number |
| FontraBackend.HexField | src/fontra/backends/fontra.py:196 | `f"{cp:04X}"` is at least four characters long, with no white space and no comma, a negative code point included |
| FontraBackend.FormatCodePoint | src/fontra/backends/fontra.py:196 | a code point is written without white space or comma |
| FontraBackend.ParseHexPadded | src/fontra/backends/fontra.py:196 | the field `f"{cp:04X}"` reads back through `int(s, 16)` as the code point, negative ones included, and does not start with `U` |
| FontraBackend.ParseFormattedEntry | src/fontra/backends/fontra.py:196 | an entry `U+XXXX` reads back as its code point |
| FontraBackend.ParseFormattedEntries | src/fontra/backends/fontra.py:196 | the written entries read back as the code points, in order |
| FontraBackend.CodePointsRoundTrip | src/fontra/backends/fontra.py:191-197 | the code-point cell `_writeGlyphInfo` writes is read back by `_parseCodePoints` as the same list, negative code points included |
| FontraBackend.PrefixOptional | src/fontra/backends/fontra.py:250-252 | an entry without `U+` reads as the same code point |
| FontraBackend.CodePointsOf | src/fontra/backends/fontra.py:244-254 | defines the code points `_parseCodePoints` returns or the error it raises; `ParseCodePoints` and `CodePointsRoundTrip` state what it does |
| FontraBackend.GlyphInfoTable | src/fontra/backends/fontra.py:191-197 | the glyph-info table has a header and one two-column row per glyph |
| FontraBackend.WriteGlyphInfo | src/fontra/backends/fontra.py:191-197 | the loop writes the header and then one row per glyph, in name order |
| FontraBackend.GlyphInfoOf | src/fontra/backends/fontra.py:178-189 | defines the glyph map `_readGlyphInfo` fills or the error it raises (no rows, a wrong header, an empty row, a bad code point); `ReadGlyphInfo` and `GlyphInfoRoundTrip` state what it does |
| FontraBackend.ReadGlyphInfo | src/fontra/backends/fontra.py:178-189 | the loop checks the header and reads each row into the glyph map as `GlyphInfoOf` says |
| FontraBackend.GlyphRowsRead | src/fontra/backends/fontra.py:178-189 | rows written for glyphs with distinct names read back as those glyphs, in order |
| FontraBackend.GlyphInfoRoundTrip | src/fontra/backends/fontra.py:178-197 | the glyph-info file written for a glyph map reads back as that map in name order, with the same code points for every name |
| FontraBackend.GlyphInfoRowsSorted | src/fontra/backends/fontra.py:195 | the glyph rows are in strictly increasing name order |
| FontraBackend.ParseInt | src/fontra/backends/fontra.py:390-393 | defines how a kerning cell is read: an optional sign and decimal digits, with white space around (see Left out); `ParseIntToString` states what it reads back |
| FontraBackend.ParseIntToString | src/fontra/backends/fontra.py:390-393 | a kerning value written as a decimal integer reads back as itself |
| FontraBackend.CellsRoundTrip | src/fontra/backends/fontra.py:299-301 | a row of kerning values, empty cells for missing ones, reads back as the same values |
| FontraBackend.NextNonBlankRow | src/fontra/backends/fontra.py:396-400 | `nextNonBlankRow` returns the next non-blank row with its line number, or nothing when only blank rows are left |
| FontraBackend.NextNonBlankRowNone | src/fontra/backends/fontra.py:396-400 | it returns nothing exactly when every remaining row is blank |
| FontraBackend.NextNonBlankRowSome | src/fontra/backends/fontra.py:396-400 | otherwise it returns the first non-blank row and its line number, and continues after it |
| FontraBackend.KerningTypeOf | src/fontra/backends/fontra.py:331-343 | reading the type section consumes rows; a table found consumes at least one |
| FontraBackend.KerningReadGroups | src/fontra/backends/fontra.py:346-358 | the loop reads the groups section as `KerningGroupsOf` says |
| FontraBackend.KerningReadValues | src/fontra/backends/fontra.py:361-387 | the loop reads the values section as `KerningValuesOf` says |
| FontraBackend.KerningOf | src/fontra/backends/fontra.py:309-328 | defines the kerning `readKerningFile` returns or the parse error it raises; `ReadKerningFile` and `KerningRoundTrip` state what it does |
| FontraBackend.ReadKerningFile | src/fontra/backends/fontra.py:309-328 | the loop reads the kerning file as `KerningOf` says |
| FontraBackend.WriteKerningTable | src/fontra/backends/fontra.py:283-302 | one table is written as its type, its groups in name order and its values |
| FontraBackend.WriteKerningFile | src/fontra/backends/fontra.py:277-302 | the file is the tables in order, separated by blank rows |
| FontraBackend.TypeRead | src/fontra/backends/fontra.py:331-343 | a written type section reads back as its type |
| FontraBackend.GroupsRead | src/fontra/backends/fontra.py:346-358 | a written groups section reads back as the same groups |
| FontraBackend.ValuesRead | src/fontra/backends/fontra.py:361-387 | a written values section reads back as the same source identifiers and values |
| FontraBackend.TableRead | src/fontra/backends/fontra.py:309-328 | a written table reads back as itself |
| FontraBackend.TablesRead | src/fontra/backends/fontra.py:309-328 | written tables with distinct types read back as the same tables in order |
| FontraBackend.NormalizeWritable | src/fontra/backends/fontra.py:277-302 | sorting the groups keeps a kerning writable |
| FontraBackend.KerningRoundTrip | src/fontra/backends/fontra.py:277-328 | the kerning file written for writable kerning reads back as that kerning with its groups in name order |
| FontraBackend.NoSourceIdentifiersRejected | src/fontra/backends/fontra.py:361-368 | a table without source identifiers is written with a `side1;side2` row that reading rejects |
| FontraBackend.EmptyLeftSideLost | src/fontra/backends/fontra.py:299-302 | a left side whose dict of right sides is empty is written as no rows, so the file does not hold it |
| FontraBackend.EmptyGroupNameEndsGroups | src/fontra/backends/fontra.py:292-293 | a group with an empty name is written as a row that the reader takes as the end of the groups section (fontra.py:353-354), so it and every later group are lost |
| FontraBackend.PutKeepsDistinct | src/fontra/backends/fontra.py:123 | assigning a key keeps the keys distinct |
| FontraBackend.PutSame | src/fontra/backends/fontra.py:121 | assigning a key the value it holds changes nothing |
| FontraBackend.GetRemoveKey | src/fontra/backends/fontra.py:131 | after `del`, the key is gone and every other key keeps its value |
| FontraBackend.RemoveKeyKeepsDistinct | src/fontra/backends/fontra.py:131 | deleting a key keeps the keys distinct |
| FontraBackend.ScheduleCoalesces | src/fontra/backends/fontra.py:409-414 | scheduling two callables with the same name keeps only the second |
| FontraBackend.FlushCallsEachNameOnce | src/fontra/backends/fontra.py:416-423 | a flush calls each scheduled name once |
| FontraBackend.PutKeepsNames | src/fontra/backends/fontra.py:409-414 | each scheduled callable stays filed under its own name |
| FontraBackend.Scheduler.Schedule | src/fontra/backends/fontra.py:409-414 | `schedule` files the callable under its name, replacing one of the same name, and sets the timer |
| FontraBackend.Scheduler.Flush | src/fontra/backends/fontra.py:416-423 | `flush` calls the scheduled callables in the order they were first scheduled, empties the schedule and cancels the timer |
| FontraBackend.Backend.Open | src/fontra/backends/fontra.py:45-66 | opening reads the glyph-info file and the kerning file when there is one, and fails exactly when either cannot be read |
| FontraBackend.Backend.Create | src/fontra/backends/fontra.py:41-65 | `createFromPath` starts an empty font: no glyphs and no glyph files, a glyph-info file holding only its header, no kerning and no kerning file, and nothing scheduled |
| FontraBackend.Backend.GetGlyphMap | src/fontra/backends/fontra.py:101-102 | `getGlyphMap` returns the glyph map |
| FontraBackend.Backend.GetGlyphData | src/fontra/backends/fontra.py:234-238 | `getGlyphData` returns a glyph's file and raises `KeyError` when there is none |
| FontraBackend.Backend.GetGlyph | src/fontra/backends/fontra.py:107-114 | `getGlyph` returns the glyph's file exactly when the glyph is in the map and has a file |
| FontraBackend.Backend.PutGlyph | src/fontra/backends/fontra.py:116-124 | `putGlyph` writes the glyph's file and sets its code points; it schedules the glyph-info file only when the code points changed |
| FontraBackend.Backend.DeleteGlyph | src/fontra/backends/fontra.py:126-132 | `deleteGlyph` raises `KeyError` for a glyph not in the map and a file error when its file is missing, changing nothing; otherwise the file and the map entry go and the glyph-info file is scheduled |
| FontraBackend.Backend.GetKerning | src/fontra/backends/fontra.py:155-156 | `getKerning` returns the kerning |
| FontraBackend.Backend.PutKerning | src/fontra/backends/fontra.py:158-161 | `putKerning` replaces the kerning and schedules the font data file |
| FontraBackend.Backend.Flush | src/fontra/backends/fontra.py:91-92 | a flush runs each scheduled writer once: the glyph-info file is rewritten from the glyph map, and the kerning file from the kerning (removed when there is none) |
| FontraBackend.Backend.Run | src/fontra/backends/fontra.py:191-232 | each writer changes only the file it writes |
| FontraBackend.FlushedGlyphInfoReadsBack | src/fontra/backends/fontra.py:178-197 | the glyph-info file a flush writes reads back as the same glyph map |
| FontraBackend.FlushedKerningReadsBack | src/fontra/backends/fontra.py:199-232 | the kerning file a flush writes for non-empty writable kerning reads back as that kerning |

## Left out

Contracts stated more weakly than the program behaves:

- VarPath.VarPackedPath.QuadraticCurveTo: requires at least one coordinate pair (`|args| != 0`). The program accepts zero arguments, since 0 is even (src/fontra/client/core/var-path.js:476-486). It then appends `args[-2], args[-1]`, both `undefined`, as an on-curve point, or raises from `_appendPoint` when there is no contour. An `undefined` coordinate has no `real` counterpart.
- EditBehavior.NumberOf: reads only keys whose index part is all decimal digits. These are the keys the program writes (`"point/12"`). JavaScript's `Number` also accepts a sign, surrounding spaces, exponents and `0x` hex, and that parsing is not modelled.
- EditBehavior.SortIndices: a stable insertion sort on the numbers `Number` gives. When an entry is `NaN`, the comparator `a - b` is inconsistent, and the engine's order then depends on its sort implementation. The model fixes one such order, and only the permutation property is claimed for it (`SortIndicesAscending` needs numbers).
- PointerTool.HandlePointsDoubleClick: the geometry of `alignHandles` (src/fontra/views/editor/edit-tools-pointer.js:385-408) is the `Aligner` parameter. The contract states which points move: only the off-curve neighbours of a point that turns smooth. It does not state where they move.
- PointerTool.ToggleTwice: toggling twice restores the point types. The coordinates of realigned handles are not restored.
- PenTool.PointAdder.IncrementalChange: the handle position is a parameter. `getHandle` (src/fontra/views/editor/edit-tools-pen.js:276-281), with its 45-degree constraint and rounding, is floating-point geometry.
- SceneController.ReverseSelectedContoursDirection, SceneController.SetStartPoint and the decomposition bookkeeping (SceneController.MergeAnchors, SceneController.DeleteComponents) are stated for one layer's path. `editLayersAndRecordChanges` runs the same edit on every editing layer and records the changes; that per-layer loop and the change recorder are not modelled.
- EditBehavior.RunEditFuncs, EditBehavior.ChangeForTransform and EditBehavior.ChangeThenRollbackRestores: only the `Move` and `DontMove` actions are spelled out. The other actions (`atan2`, `hypot`, `vector.intersect`; src/fontra/client/editor/edit-behavior.js:327-385) are the `geometry` parameter, and `constrainDelta` is a function parameter.
- EditBehavior.FindPointMatch: the match tree is a parameter. `buildPointMatchTree`, `POINT_TYPES` and the default rule set live in edit-behavior-support, which is not part of this model.
- VarPath.VarPackedPath.IterPointsInRect, VarPath.VarPackedPath.FirstPointIndexNearPoint and SceneController.PathConnectDetector.ShouldConnect take the rectangle test of rectangle.js (`pointInRect`, `centeredRect`) as a predicate parameter. Among several near points, the first one wins; the source leaves this tie-break open in a TODO (src/fontra/client/core/var-path.js:371-372).

Behaviour not modelled:

- The `getBehavior` lookup itself. `behaviorTypes` (src/fontra/client/editor/edit-behavior.js:390-403) defines only "default" and "constrain". Alt-drags and Alt-arrow nudges ask for "alternate" and "alternate-constrain" (src/fontra/views/editor/scene-controller.js:441-443, `PointerTool.BehaviorName`). The lookup gives `undefined` for those names, and the drag then raises. The model takes the behaviour as a `BehaviorType` value, so it does not show this failure.
- `VarArray` is modelled as a class over `seq<real>`. Its own file is not part of this model; only the behaviour var-path.js relies on is used.
- changes.js and the change recorder: changes are a datatype of this model with an apply function of its own (`EditBehavior.ApplyOne`, `PenTool.ApplyChange`). A consolidated change is the list of its changes.
- path-functions.js (`connectContours`, `splitPathAtPointIndices`): the actual joining of contours after `shouldConnect` is not modelled.
- The debug drawing variants `_drawContourToPath2d___` and `_drawContourToPath2dXX` (src/fontra/client/core/var-path.js:557-596): they are not called.
- Floating-point rounding: `round` in `suggestedSourceNameFromLocation` is inside the `valueText` parameter, and `roundPoint` and `roundComponentOrigins` are not modelled.
- `getAxisBaseName` is the `baseName` parameter of `DesignspaceNavigation.GetAxisInfoFromGlyph`.
- Dialogs are not modelled. In `removeSource`, `addSource` and `editSourceProperties`, the dialog's answers (confirmation, the delete-layer checkbox, the entered name, layer and location) are parameters.
- `getSuggestedGlyphNameFunc` and `getUnicodeFromGlyphNameFunc` (asynchronous in the program) are functions in `EditorText.Maps`.
- UI, DOM, canvas, event and async plumbing are not modelled: editor wiring, scene listeners, the editing lock `_editGlyphOrInstance`, and mouse-drag streams. The methods model what one event does to the state.
- font-sources-instancer.js, `DiscreteVariationModel`, `LRUCache` and glyph-lines.js: float interpolation and caching outside the core.
- fontra.py, JSON: glyph files are kept as opaque JSON text. `structure`/`unstructure` and the JSON encoder are not modelled.
- fontra.py, font data: `_writeFontData` and the font-data getters and putters other than kerning (axes, sources, features, custom data) are not modelled. `KerningFileOf` is the kerning part of what that writer produces.
- fontra.py, files: file paths and `stringToFileName` are not modelled. Glyph files are a map from glyph name to file text.
- fontra.py, the flush timer: the asyncio timer is the `timerPending` flag of `FontraBackend.Scheduler`. Its firing is a call to `Flush`.
- fontra.py, CSV: the csv module's quoting and dialect are not modelled. Rows are sequences of cells, so a name containing the `;` delimiter round-trips here as it does through the csv module.
- FontraBackend.ParseInt: reads only integer cells: an optional sign and decimal digits, with white space around. `kerningParseValue` (src/fontra/backends/fontra.py:390-393) goes through `float`, so it also reads fractions, exponents and underscores, and keeps a non-integral value as a float. For `inf`, `-inf` or a number too large for a float such as `1e400`, `int(f)` raises `OverflowError`. The `except ValueError` at src/fontra/backends/fontra.py:384 does not catch that, so reading the file fails with `OverflowError` and not with a kerning parse error. For `nan`, `int(f)` raises `ValueError`, which does become a kerning parse error. Floating point is not modelled, so kerning values here are integers, and every one of these cells reads here as the `ValueParse` error.
- FontraBackend.ParseCodePoints: `int(s, 16)` (src/fontra/backends/fontra.py:253) is modelled for ASCII text: white space around, an optional sign, an optional `0x` or `0X` prefix with at most one underscore after it, and hexadecimal digits with single underscores between them. Python also takes the decimal digits of other scripts (Arabic-Indic or full-width digits, for instance) as the digit values 0-9. Those characters are read as errors here.
- DesignspaceNavigation.LayerKey: a source's layer name that is not a string is treated as naming no layer. JavaScript's `glyph.layers[name]` first converts the name to a string key (a number 12 names the layer "12"), so such a source would find a layer in the program where the model finds none.
- DesignspaceNavigation.FromEntries, DesignspaceNavigation.ToMap: an object's keys are kept in the order they were first set. A JavaScript object lists integer-like keys (such as `"12"`) first, in increasing numeric order, and only then its other keys in insertion order. An axis named like an integer would therefore come out in a different place in the program than in this model.
- FontraBackend.KerningRoundTrip: requires what the file format can carry (`Writable`). Each table needs at least one source identifier: with none, the writer emits a `VALUES` header that the reader rejects (`FontraBackend.NoSourceIdentifiersRejected`). The type name must not be empty, since the reader raises on an empty type cell (src/fontra/backends/fontra.py:340-341). Group names and left sides must not be empty, since a row whose first cell is empty ends its section (`FontraBackend.EmptyGroupNameEndsGroups`). Each left side needs at least one right side, since one without any is written as no rows and disappears (`FontraBackend.EmptyLeftSideLost`).
- SelectionInfo.Instance.ValueStream: arrays are objects keyed by their index strings, and an array's `length` is not modelled. A stream that sets a value past an array's end and later deletes it restores the properties here. In JavaScript the array keeps its greater length, with a hole.

## Findings

| source | as written | input that shows it | evidently intended | confidence | as-written member | corrected member |
|---|---|---|---|---|---|---|
| src/fontra/client/core/var-path.js:699-702 | the implied start point of a contour without on-curve points reads `blobCoordinates[endPoint * 2]`, but `blobCoordinates` is the contour's own slice, so the absolute `endPoint` is past its end unless the contour starts at point 0 | contours `[on, on]` then `[quad, quad]`: the second contour's end point is 3, its slice has 4 numbers, and `blobCoordinates[6]` is `undefined`, so it is drawn from `moveTo(NaN, NaN)` | the midpoint of the contour's last and first points, `(endPoint - startPoint) * 2` into the slice | high (not executed) | PathDrawing.ContourOpsAsWritten, PathDrawing.BlobAsWrittenStartsAtNaN, PathDrawing.BlobMidpointAsWrittenDiffers | PathDrawing.ContourOps, PathDrawing.BlobStartsAtMidpoint, VarPath.VarPackedPath.DrawToPath2d |
| src/fontra/client/editor/edit-behavior.js:252-262 | `findPointMatch` compares against `DOESNT_EXIST`, which the module does not import (edit-behavior.js:4-8), and tests `point.type === 0`, but `getPoint` leaves `type` unset on on-curve points (var-path.js:211-229) | dragging point 0 of any open contour: the window index -2 is outside the contour, so `DOESNT_EXIST` is evaluated and raises a ReferenceError; in a closed contour of five on-curve points, no point is ever classed on-curve, so an on-curve rule never matches | a missing neighbour is classed as absent, and a point without a type is on-curve | high (not executed) | EditBehavior.ClassAtAsWritten, EditBehavior.FindPointMatchAsWritten, EditBehavior.AsWrittenOpenStartRaises, EditBehavior.AsWrittenMissesOnCurve | EditBehavior.ClassAt, EditBehavior.FindPointMatch, EditBehavior.MakePointEditFuncs |
| src/fontra/views/editor/scene-controller.js:1125-1152 | `shouldConnect` calls `this.path.pointIndexNearPoint`, which `VarPackedPath` does not define | any pen-tool drag that ends while a connect source is set: the call raises a TypeError | `firstPointIndexNearPoint` (var-path.js:359-377), skipping the source point | high (not executed) | SceneController.ShouldConnectAsWritten | SceneController.PathConnectDetector.ShouldConnect |
| src/fontra/views/editor/editor.js:1246-1250 | `textFromGlyphLines` writes a glyph's character as it is, so the glyph that `//` stands for is written as a bare `/` | the text `//`: it reads as one glyph with character `/`, is written back as `/`, and that reads as no glyph at all | write the character `/` as `//`, so the text reads back as the same glyph line | medium (not executed) | EditorText.SlashCharacterLost, EditorText.PieceAsWritten, EditorText.LineTextAsWritten | EditorText.TextRoundTrip, EditorText.Piece, EditorText.GlyphPiece, EditorText.TextFromGlyphLine, EditorText.TextFromGlyphLines |
