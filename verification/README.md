# Graphics-course rasterizer and 3D viewer core, in Dafny

This project models two pieces of a computer-graphics course repository.

- **The 2D software rasterizer** of the "mini scene" demo (`UTS/mini_scene_2d.py`).
  It is a pixel dictionary written through `put_pixel`, plus:
  - DDA line drawing;
  - the midpoint circle, as an outline or filled;
  - the polygon outline with its scan-line, even-odd fill;
  - the exact affine transforms `translate`, `scale` and `reflect_y`;
  - the animation parameters: cloud offset, sun angle and zoom.
- **The core of the software 3D viewer** (`UAS/simple_3d_room.py`):
  - `Vector3` algebra and the box and cylinder factories;
  - the `Object3D` state: easing, selection, world and shadow vertices;
  - the pure part of `draw`. This covers the camera transform, the
    perspective projection with its near-plane cull (`dist < 10`), flat
    lighting with the brightness clamp, the `#rrggbb` channel shading with its
    `int(s, 16)` parsing and `02x` formatting, and the painter's sort by
    depth.

Numbers are exact `real`s and unbounded `int`s. Python's `int()` on a float
truncates toward zero (`Numeric.Trunc`). The pixel dictionary is a
`map<(int, int), string>`. Every drawing routine is modelled as the list of
coordinates it hands to `put_pixel`. `PixelBuffer.Paint` folds that list into
the dictionary, so later writes win.

The methods model the Python loops statement by statement. The functions
are the references the loops are proved against.

Python exceptions are explicit error results:
- `draw_polygon(..., fill=True)` on an empty list raises in `min`, modelled
  as `Err`;
- a bad face index raises `IndexError`, modelled as `Err`;
- a `ValueError` from `int(s, 16)` is the caught `None`.

Trigonometry and square roots have no exact counterpart, so they are inputs:
- the camera takes its cosines, sines and zoom as data;
- the cylinder takes its ring points as a function;
- lighting takes `sqrt` as a function parameter.

Modules, one per file:
- `numeric.dfy`: `Numeric` (truncation, min/max, arithmetic facts) and
  `Results` (`Option`, `Result`);
- `pixel_buffer.dfy`: `PixelBuffer`;
- `sorting.dfy`: `Sorting`;
- `line_dda.dfy`: `LineDda`;
- `circle_midpoint.dfy`: `CircleMidpoint`;
- `polygon_fill.dfy`: `PolygonFill`;
- `transforms.dfy`: `Transforms`;
- `scene_animation.dfy`: `SceneAnimation`;
- `vector3.dfy`: `VectorMath`;
- `mesh.dfy`: `Mesh`;
- `object3d.dfy`: `Objects`;
- `hex_colour.dfy`: `HexColour`;
- `render.dfy`: `Render`.

Details of the code that the model keeps:
- Samples are truncated with `int()`. This applies to DDA samples, polygon
  rows and fill spans.
- A DDA line has `int(max(|dx|, |dy|)) + 1` samples. It ends on `(x2, y2)`
  only when the end points are integers (`LineDda.LineMayStopShort`).
- The polygon fill scans rows `int(min y) .. int(max y)`.
- Two calls raise: `draw_polygon` with `fill=True` on no points, and an
  out-of-range face index in `draw`.
- `draw_circle_midpoint` collects its points only when filling; when not
  filling it paints each round's 8 points at once and its list stays empty.

## Model

| member | source | states |
|---|---|---|
| Numeric.Trunc | UTS/mini_scene_2d.py:168 | `int(x)` on a float truncates toward zero: the result is the integer at or below `x` for `x >= 0` and at or above it for `x < 0`, within one |
| PixelBuffer.PutPixel | UTS/mini_scene_2d.py:167-170 | the key `(int(x), int(y))` gets the colour exactly when it lies on the 800×600 canvas, otherwise the dictionary is unchanged; every other key and its colour are untouched; the dictionary stays on the canvas |
| PixelBuffer.Plot | UTS/mini_scene_2d.py:167-170 | `put_pixel` at an integer pixel is a map update on the canvas and a no-op off it |
| PixelBuffer.PaintEffect | UTS/mini_scene_2d.py:167-170 | after a run of `put_pixel` calls with one colour, the dictionary holds that colour on exactly the run's canvas pixels and is unchanged elsewhere |
| PixelBuffer.PaintAppend | UTS/mini_scene_2d.py:167-170 | painting two runs one after the other is painting their concatenation |
| PixelBuffer.PaintStaysOnCanvas | UTS/mini_scene_2d.py:169-170 | no drawing ever stores a pixel outside the canvas |
| PixelBuffer.Span | UTS/mini_scene_2d.py:128-129 | `for x in range(a, b + 1): put_pixel(x, y)` visits exactly the row-`y` pixels with `a <= x <= b` |
| PixelBuffer.SpanIndex | UTS/mini_scene_2d.py:128-129 | that run has `b - a + 1` pixels (none when `a > b`), left to right |
| LineDda.LineSamples | UTS/mini_scene_2d.py:41-58 | a line starts at `(int(x1), int(y1))`; a zero-length one is that single pixel, any other has `int(steps) + 1` samples |
| LineDda.DrawLineDda | UTS/mini_scene_2d.py:41-58 | the loop with running sums `x += x_inc` paints exactly the line's samples, in order |
| LineDda.LineReachesEnd | UTS/mini_scene_2d.py:45-58 | with integer end points the line has `max(abs(dx), abs(dy)) + 1` samples and its last sample is `(x2, y2)` |
| LineDda.LineConnected | UTS/mini_scene_2d.py:51-58 | consecutive samples are equal or 8-neighbours, so the line has no gaps |
| LineDda.LineWithinBox | UTS/mini_scene_2d.py:51-58 | every sample lies in the box spanned by the truncated end points |
| LineDda.LineMayStopShort | UTS/mini_scene_2d.py:55 | with a fractional step count the last sample falls short of the end point: (0.5, 0) to (3, 0) ends at (2, 0) |
| CircleMidpoint.MidpointStep | UTS/mini_scene_2d.py:83-88 | one round of the decision update keeps the midpoint invariant, relating `d` to the squared distance of the next midpoint |
| CircleMidpoint.OctantFrom | UTS/mini_scene_2d.py:68-88 | the loop from state `(x, y, d)` visits offsets whose `x` rises by exactly one per round, starting at `(x, y)`, and runs while `x <= y` |
| CircleMidpoint.OctantFromShape | UTS/mini_scene_2d.py:68-88 | every offset visited satisfies `0 <= x <= y <= r`, `y` never rises and drops by at most one per round, and each offset is within `y` of the circle in squared distance |
| CircleMidpoint.Octant | UTS/mini_scene_2d.py:62-88 | from `x = 0, y = r, d = 1 - r`: nothing for a negative radius, otherwise the first offset is `(0, r)` and offset `i` has `x = i` |
| CircleMidpoint.OctantShaped | UTS/mini_scene_2d.py:62-88 | the offsets from the initial state have the octant shape above |
| CircleMidpoint.OctantLength | UTS/mini_scene_2d.py:68-88 | the loop terminates after at most `r + 1` rounds |
| CircleMidpoint.MirrorAcrossX | UTS/mini_scene_2d.py:70-75 | each of the 8 points one round emits has its mirror image across `x = xc` among the 8 |
| CircleMidpoint.MirrorAcrossY | UTS/mini_scene_2d.py:70-75 | ... and its mirror image across `y = yc` |
| CircleMidpoint.MirrorSwapped | UTS/mini_scene_2d.py:70-75 | ... and its image with the two offsets from the centre swapped |
| CircleMidpoint.Iteration | UTS/mini_scene_2d.py:70-75 | each round emits exactly 8 points |
| CircleMidpoint.EightWayBlocks | UTS/mini_scene_2d.py:68-81 | round `k` puts its 8 points at positions `8k .. 8k + 7`, in the order of the list `pts` |
| CircleMidpoint.CirclePoints | UTS/mini_scene_2d.py:62-88 | the outline has 8 points per round of the loop |
| CircleMidpoint.CircleBlocks | UTS/mini_scene_2d.py:68-81 | outline point `8k + m` is point `m` of round `k` |
| CircleMidpoint.PointOfIndex | UTS/mini_scene_2d.py:68-81 | outline point `i` is point `i % 8` of round `i / 8` |
| CircleMidpoint.CircleEndpoints | UTS/mini_scene_2d.py:62-75 | a negative radius draws nothing; otherwise the four axis points `(xc, yc ± r)`, `(xc ± r, yc)` are drawn |
| CircleMidpoint.CircleNear | UTS/mini_scene_2d.py:62-88 | every outline point is within `r` of the centre on each axis and its squared distance is within `r` of `r²` |
| CircleMidpoint.CircleSymmetric | UTS/mini_scene_2d.py:70-81 | the whole outline is closed under reflection across `x = xc`, across `y = yc`, and the swap of offsets |
| CircleMidpoint.CircleMirroredAt | UTS/mini_scene_2d.py:70-75 | the mirror images of each outline point are outline points |
| CircleMidpoint.RowXs | UTS/mini_scene_2d.py:93 | the x values selected for row `py` are exactly those of outline points on that row (on integers `abs(p.y - py) < 1` is equality) |
| CircleMidpoint.SeqMin | UTS/mini_scene_2d.py:95 | `min(x_vals)` is a member no larger than any other |
| CircleMidpoint.SeqMax | UTS/mini_scene_2d.py:95 | `max(x_vals)` is a member no smaller than any other |
| CircleMidpoint.RowSpan | UTS/mini_scene_2d.py:93-97 | one fill row paints exactly the pixels of that row between its leftmost and rightmost outline point, and nothing when the row has none |
| CircleMidpoint.FillRowsMembers | UTS/mini_scene_2d.py:92-97 | the fill pass over rows `lo .. hi` paints exactly the in-span pixels of those rows |
| CircleMidpoint.FillOfMembers | UTS/mini_scene_2d.py:91-97 | the same holds for the pass guarded by `if fill and points` |
| CircleMidpoint.FilledCircleMembers | UTS/mini_scene_2d.py:91-97 | the filled circle writes only rows `yc - r .. yc + r` and, on each, only columns between the least and greatest x of the outline points on that row, and all of them |
| CircleMidpoint.DrawCircleMidpoint | UTS/mini_scene_2d.py:61-97 | the outline variant paints the outline points in loop order; the filled variant paints only the fill rows, not the outline |
| CircleMidpoint.MidpointLoop | UTS/mini_scene_2d.py:62-88 | the while loop collects exactly the outline points when filling and leaves the list empty otherwise; it paints the outline when not filling and nothing when filling |
| CircleMidpoint.FillPass | UTS/mini_scene_2d.py:92-97 | the row loop paints exactly the fill rows, row by row |
| CircleMidpoint.FillCoversOutline | UTS/mini_scene_2d.py:91-97 | the filled disc covers every outline point |
| PolygonFill.EdgeEndWraps | UTS/mini_scene_2d.py:104 | the end of edge `i` is `points[(i + 1) % len(points)]`, so the last edge closes back to the first vertex |
| PolygonFill.OutlineIsEdges | UTS/mini_scene_2d.py:102-105 | the outline is exactly the union of one DDA line per edge, the closing edge included |
| PolygonFill.OutlineHasVertices | UTS/mini_scene_2d.py:102-105 | every vertex's pixel is on the outline |
| PolygonFill.EdgeReachesNext | UTS/mini_scene_2d.py:102-105 | with integer vertices each edge's last pixel is the next vertex |
| PolygonFill.OutlineCloses | UTS/mini_scene_2d.py:102-105 | with integer vertices the outline is a closed path: its last pixel is its first, the first vertex |
| PolygonFill.CrossesIffSides | UTS/mini_scene_2d.py:118-119 | the edge test `y1 != y2 and min <= y < max` holds exactly when one end is at or below the row and the other above, so horizontal edges never contribute |
| PolygonFill.ChainParity | UTS/mini_scene_2d.py:114-121 | along an open chain of edges the crossing count is odd exactly when its ends lie on opposite sides of the row |
| PolygonFill.CrossingsEven | UTS/mini_scene_2d.py:112-125 | every row meets the closed polygon an even number of times, so the pairing loop never meets an unpaired crossing |
| PolygonFill.CrossXBetween | UTS/mini_scene_2d.py:118-121 | each intersection x lies between that edge's end point x values |
| PolygonFill.Lowest | UTS/mini_scene_2d.py:109 | Python's `min` over the vertices is a member no larger than any other |
| PolygonFill.Highest | UTS/mini_scene_2d.py:110 | Python's `max` over the vertices is a member no smaller than any other |
| PolygonFill.XsWithinHull | UTS/mini_scene_2d.py:100-110 | every vertex x lies between the least and greatest vertex x |
| PolygonFill.CrossingsUpToWithin | UTS/mini_scene_2d.py:114-121 | every intersection lies within any x-range holding all the vertices |
| PolygonFill.RunsMembers | UTS/mini_scene_2d.py:124-129 | the pairing loop paints a pixel exactly when it is on the row and between `int(s[2k])` and `int(s[2k+1])` for some pair `k` |
| PolygonFill.RunsDropTrailing | UTS/mini_scene_2d.py:124-125 | a trailing unpaired intersection paints nothing |
| PolygonFill.RowFillPairs | UTS/mini_scene_2d.py:112-129 | on each row the sorted intersections are ascending and come in complete pairs, and the row's pixels are exactly the runs between the members of each pair |
| PolygonFill.FillRowsMembers | UTS/mini_scene_2d.py:112-129 | the row loop paints exactly the row fills of the rows `lo .. hi` |
| PolygonFill.SortedWithin | UTS/mini_scene_2d.py:123 | sorting keeps the intersections, so they stay within the vertices' x-range |
| PolygonFill.RowFillWithin | UTS/mini_scene_2d.py:123-129 | each row's fill stays between the truncated extreme x values |
| PolygonFill.FillWithinBox | UTS/mini_scene_2d.py:108-129 | the fill scans only rows `int(min y) .. int(max y)` and stays in columns `int(min x) .. int(max x)` |
| PolygonFill.DrawOutline | UTS/mini_scene_2d.py:101-105 | the edge loop paints the outline: one DDA line per edge, in order |
| PolygonFill.ScanRow | UTS/mini_scene_2d.py:113-121 | the inner loop collects exactly the row's intersections, in edge order |
| PolygonFill.PaintSpan | UTS/mini_scene_2d.py:128-129 | the innermost loop paints the run `x_start .. x_end` |
| PolygonFill.PaintRuns | UTS/mini_scene_2d.py:124-129 | the pairing loop paints the runs of pairs `[0,1], [2,3], ...` |
| PolygonFill.FillRow | UTS/mini_scene_2d.py:113-129 | one row: collect, sort, pair and paint gives the row fill |
| PolygonFill.FillScan | UTS/mini_scene_2d.py:112-129 | the row loop paints rows `lo .. hi` in order |
| PolygonFill.DrawPolygon | UTS/mini_scene_2d.py:100-129 | `draw_polygon` fails exactly when filling an empty point list; otherwise it paints the outline and then, with `fill`, the rows `int(min y) .. int(max y)` |
| Transforms.Translate | UTS/mini_scene_2d.py:132-133 | the list keeps its length |
| Transforms.TranslateInverse | UTS/mini_scene_2d.py:132-133 | translating by `(tx, ty)` and then by `(-tx, -ty)` restores every point |
| Transforms.TranslateCompose | UTS/mini_scene_2d.py:132-133 | two translations compose into one by the summed offset |
| Transforms.Scale | UTS/mini_scene_2d.py:135-141 | the list keeps its length |
| Transforms.ScaleFixesPivot | UTS/mini_scene_2d.py:135-141 | a point at the pivot stays there |
| Transforms.ScaleIdentity | UTS/mini_scene_2d.py:135-141 | factors `sx = sy = 1` leave every point in place |
| Transforms.ScaleOffsets | UTS/mini_scene_2d.py:135-141 | each point's offset from the pivot is multiplied by `(sx, sy)` |
| Transforms.ScaleInverse | UTS/mini_scene_2d.py:135-141 | non-zero factors are undone by their reciprocals about the same pivot |
| Transforms.ReflectY | UTS/mini_scene_2d.py:163-164 | the list keeps its length |
| Transforms.ReflectInvolution | UTS/mini_scene_2d.py:163-164 | reflecting twice across the same axis is the identity |
| Transforms.ReflectTwiceTranslates | UTS/mini_scene_2d.py:163-164 | reflecting across `a` and then `b` is a vertical translation by `2(b - a)` |
| Transforms.ReflectFixesAxis | UTS/mini_scene_2d.py:163-164 | points on the axis are fixed |
| SceneAnimation.InitialValid | UTS/mini_scene_2d.py:19-21 | the constructor's values lie in the ranges the frame update keeps |
| SceneAnimation.Tick | UTS/mini_scene_2d.py:350-357 | a stopped animation changes nothing; a frame leaves the scale alone and keeps cloud, sun and scale in range |
| SceneAnimation.TicksClosedForm | UTS/mini_scene_2d.py:350-357 | after `n` frames the cloud offset is the start advanced by `n` modulo the 901 positions `-100 .. 800`, and the sun angle is the start plus `2n` modulo 360 |
| SceneAnimation.ZoomIn | UTS/mini_scene_2d.py:362-363 | `zoom_in` sets the scale to `min(scale + 0.1, 2.0)`, changes nothing else, and never shrinks a valid scale |
| SceneAnimation.ZoomsFromNormal | UTS/mini_scene_2d.py:362-363 | from normal size, `n` presses give `min(1 + n/10, 2)` |
| SceneAnimation.ResetScale | UTS/mini_scene_2d.py:365-366 | `reset_scale` sets the scale to 1.0 and changes nothing else |
| SceneAnimation.TickZoomCommute | UTS/mini_scene_2d.py:350-366 | frame updates and key presses touch disjoint parameters and commute |
| VectorMath.AddSubInverse | UAS/simple_3d_room.py:18-19 | `v.add(w).sub(w) == v` and `v.sub(w).add(w) == v` |
| VectorMath.AddGroup | UAS/simple_3d_room.py:18-19 | addition is commutative and associative with the zero vector as unit |
| VectorMath.MulLaws | UAS/simple_3d_room.py:18-20 | scaling distributes over addition, composes by multiplying factors, and scaling by one is the identity |
| VectorMath.DotLaws | UAS/simple_3d_room.py:18-22 | the dot product is symmetric and linear |
| VectorMath.CrossOrthogonal | UAS/simple_3d_room.py:22-29 | `a.cross(b)` has zero dot product with both `a` and `b` |
| VectorMath.CrossAnticommutes | UAS/simple_3d_room.py:24-29 | swapping the arguments negates the cross product; a vector crossed with itself is zero |
| Mesh.CreateBox | UAS/simple_3d_room.py:38-58 | 8 vertices, each coordinate `±w/2`, `±h/2`, `±d/2`; 6 faces of exactly 4 indices, all in `[0, 8)`, all in the given colour |
| Mesh.BoxFacesAreSides | UAS/simple_3d_room.py:41-57 | the six faces lie on the six different sides of the box, in the order back, front, left, right, top, bottom |
| Mesh.BoxWindingConsistent | UAS/simple_3d_room.py:47-57 | all six faces are wound alike: the normal the renderer computes from their first three corners has the same dot product `-w*h*d/2` with the face's first corner |
| Mesh.BoxFaceWinding | UAS/simple_3d_room.py:47-57 | the same for one face, in terms of the half sizes |
| Mesh.NextIndexWraps | UAS/simple_3d_room.py:76-78 | the ring neighbour is `(i + 1) % segments` |
| Mesh.Range | UAS/simple_3d_room.py:83-84 | `[i for i in range(a, b)]` lists `a .. b-1` |
| Mesh.Reverse | UAS/simple_3d_room.py:85 | `reverse()` puts element `i` at position `len - 1 - i` |
| Mesh.CylinderFaces | UAS/simple_3d_room.py:72-87 | `segments + 2` faces |
| Mesh.InterleavedRings | UAS/simple_3d_room.py:65-70 | the vertex loop puts ring point `k` of the top at index `2k` and of the bottom at `2k + 1` |
| Mesh.CreateCylinder | UAS/simple_3d_room.py:60-88 | `2*segments` vertices, top points at even and bottom points at odd indices, and `segments + 2` faces |
| Mesh.CylinderFacesShape | UAS/simple_3d_room.py:72-87 | side quad `i` is `[i, i+n, (i+1)%n + n, (i+1)%n]`, the top cap lists `0 .. n-1`, the bottom cap is `n .. 2n-1` reversed, all in the given colour |
| Mesh.CylinderFacesInRange | UAS/simple_3d_room.py:72-87 | every face index lies in `[0, 2*segments)` |
| Mesh.CylinderFaceShape | UAS/simple_3d_room.py:60-88 | the same for `create_cylinder` itself: every index names a vertex, every face has the colour, the side quads and caps are as listed |
| Mesh.CylinderTopCapMixesRings | UAS/simple_3d_room.py:65-87 | as written, with two or more segments and a non-zero height, the top cap's first index names a top point and its second a bottom point |
| Mesh.CreateCylinderBlock | UAS/simple_3d_room.py:64-70 | the layout the faces expect: top ring at `0 .. n-1`, bottom ring at `n .. 2n-1` |
| Mesh.CylinderBlockInRange | UAS/simple_3d_room.py:72-87 | with that layout every index still names a vertex and every face has the colour |
| Mesh.CylinderBlockTopFlat | UAS/simple_3d_room.py:83-86 | with that layout the top cap lies in the plane `y = height/2` |
| Mesh.CylinderBlockBottomFlat | UAS/simple_3d_room.py:84-87 | ... and the bottom cap in `y = -height/2` |
| Mesh.CylinderBlockSidesUpright | UAS/simple_3d_room.py:74-80 | ... and each side quad runs from a top point down to the point below it, across to the neighbour below and up to the neighbour on top |
| Objects.NewObject | UAS/simple_3d_room.py:92-100 | a new object is unselected, at rest at normal size, with the given mesh, position and line flag |
| Objects.Update | UAS/simple_3d_room.py:102-107 | only the scale changes; beyond the 0.01 threshold the distance to the target shrinks to 0.8 times itself, keeping its sign, otherwise the scale snaps to the target |
| Objects.UpdateNoOvershoot | UAS/simple_3d_room.py:102-107 | the new scale lies between the old one and the target, and the distance to the target strictly shrinks unless it is zero |
| Objects.UpdateFixedPoint | UAS/simple_3d_room.py:102-107 | `update` leaves an object alone exactly when it has reached its target |
| Objects.UpdateKeepsRange | UAS/simple_3d_room.py:102-107 | `update` keeps the scale in `[1.0, 1.1]` and the target in step with the selection |
| Objects.UpdateShrinks | UAS/simple_3d_room.py:102-107 | one frame takes at least a fifth off the distance to the target |
| Objects.UpdatesConverge | UAS/simple_3d_room.py:102-107 | after `n` frames the distance is at most `0.8^n` times the start, and the target has not moved |
| Objects.ToggleSelect | UAS/simple_3d_room.py:109-113 | a line object returns false and is unchanged; otherwise the selection flips, the target becomes 1.1 exactly when selected (else 1.0), the new selection is returned, and nothing else changes |
| Objects.ToggleTwice | UAS/simple_3d_room.py:109-113 | toggling twice restores the object |
| Objects.ToggleKeepsRange | UAS/simple_3d_room.py:109-113 | toggling keeps the scale in range |
| Objects.WorldVerts | UAS/simple_3d_room.py:115-120 | one world vertex per model vertex, each `v * scale_val + pos` |
| Objects.WorldVertsInverse | UAS/simple_3d_room.py:115-120 | with a non-zero scale, moving back and dividing by the scale recovers the model vertices |
| Objects.WorldVertsAtNormalSize | UAS/simple_3d_room.py:115-120 | at scale 1.0 the world vertices are the model vertices moved to the position |
| Objects.ShadowVerts | UAS/simple_3d_room.py:122-128 | a line object has no shadow; otherwise one shadow vertex per world vertex, at `y = FLOOR_Y + 1`, moved by 30 in `x` and `z` |
| Objects.ShadowIgnoresHeight | UAS/simple_3d_room.py:122-128 | vertices that agree on `x` and `z` cast the same shadow |
| Objects.ShadowFollowsObject | UAS/simple_3d_room.py:122-128 | moving the object moves its shadow by the horizontal part of the move |
| HexColour.Slice | UAS/simple_3d_room.py:370-372 | `s[a:b]` is at most `b - a` characters: the plain subsequence when `b` is in range, the tail from `a` when only `a` is, and empty when `a` is past the end |
| HexColour.ShortNamesClamp | UAS/simple_3d_room.py:368-377 | the blue slice of `#fff` is empty, so the `ValueError` path draws `#fff` unshaded; the blue slice of `#fffff` is `f` |
| HexColour.FormatByte | UAS/simple_3d_room.py:373 | `f"{n:02x}"` of a byte is exactly two lower-case digits, high digit first |
| HexColour.ParseTwoDigits | UAS/simple_3d_room.py:370-372 | `int(s, 16)` of two hex digits is their value |
| HexColour.ParseFormatByte | UAS/simple_3d_room.py:370-373 | reading back a formatted byte with `int(s, 16)` gives the byte |
| HexColour.ParseRejects | UAS/simple_3d_room.py:370-372 | `int(s, 16)` refuses a non-digit pair, an empty slice, a bare `0x` and a leading underscore |
| HexColour.ParseAccepts | UAS/simple_3d_room.py:370-372 | `int(s, 16)` accepts a sign, surrounding blanks and a lone digit |
| HexColour.Shade | UAS/simple_3d_room.py:368-377 | a colour not starting with `#` comes back unchanged, and any changed colour is `#` plus at least six characters |
| HexColour.PartParses | UAS/simple_3d_room.py:370-372 | each two-character channel of a `#rrggbb` colour parses to its byte |
| HexColour.ShadeWellFormed | UAS/simple_3d_room.py:369-373 | a `#rrggbb` colour is rewritten as `#` and the three bytes, each times `val`, truncated and written `02x` |
| HexColour.ShadeShape | UAS/simple_3d_room.py:369-373 | for a shade factor in `[0, 1]` the result is `#` and exactly six lower-case hex digits |
| HexColour.ScaledByte | UAS/simple_3d_room.py:370-372 | `int(c * val)` of a byte with `val` in `[0, 1]` stays in `[0, c]`, hence in `[0, 255]` |
| HexColour.ShadeFullBrightness | UAS/simple_3d_room.py:368-373 | at full brightness a lower-case `#rrggbb` colour is returned unchanged |
| HexColour.ShadeKeepsUnparsable | UAS/simple_3d_room.py:368-377 | when any channel fails to parse, the `ValueError` path returns the colour unchanged |
| Render.LevelCameraIdentity | UAS/simple_3d_room.py:310-324 | the camera at angle zero without zoom leaves every vertex where it is |
| Render.CameraZoomScales | UAS/simple_3d_room.py:319-322 | the zoom scales the turned vertex uniformly |
| Render.CameraLinear | UAS/simple_3d_room.py:310-324 | the camera transform maps sums to sums |
| Render.CameraRotationKeepsLength | UAS/simple_3d_room.py:312-317 | with genuine cosine/sine pairs and no zoom, the camera transform keeps lengths |
| Render.ProjectAlongRay | UAS/simple_3d_room.py:335-341 | points on one ray from the eye project to the same screen point |
| Render.ProjectCentre | UAS/simple_3d_room.py:335-341 | the point straight ahead of the eye projects to the window centre |
| Render.Project | UAS/simple_3d_room.py:334-342 | the projection loop succeeds exactly when no vertex has `FOV + z < 10`; it then gives each vertex's projection, in order, and a depth sum of at least 10 per vertex |
| Render.Wrap | UAS/simple_3d_room.py:328 | a valid Python index, negative ones counting from the end, names an element |
| Render.Gather | UAS/simple_3d_room.py:328 | `[cam_verts[idx] for idx in sub_indices]` raises exactly when some index is out of range, and otherwise lists the indexed vertices in order |
| Render.DegenerateFaceUnlit | UAS/simple_3d_room.py:351-365 | a face whose first three vertices span no plane has intensity 0 and brightness 0.5 |
| Render.Brightness | UAS/simple_3d_room.py:364-365 | the shade factor lies in `[0.3, 1.0]`, is `0.5 + i/2` between the clamps and the clamp value beyond them |
| Render.BrightnessMonotone | UAS/simple_3d_room.py:364-365 | more light never gives a darker face |
| Render.AverageAtLeast | UAS/simple_3d_room.py:345 | the average depth of a face whose every depth is at least 10 is at least 10 |
| Render.FaceItemFails | UAS/simple_3d_room.py:327-379 | a face raises exactly when an index is out of range, or when it is a visible polygon face of two vertices whose lighting reads a third |
| Render.FaceItemSkipped | UAS/simple_3d_room.py:334-344 | a face is skipped without error exactly when its indices are valid and it has a vertex nearer than the limit or fewer than two vertices |
| Render.FaceItemEntry | UAS/simple_3d_room.py:334-379 | a face that enters the render list is wholly beyond the near limit, has one point per index, an average depth of at least 10, the object's kind, and a line keeps its colour |
| Render.FaceItemColour | UAS/simple_3d_room.py:366-379 | a lit face of a `#rrggbb` colour is drawn in `#` and six lower-case hex digits; a colour without `#` is drawn as it is |
| Render.FacesItemsOk | UAS/simple_3d_room.py:327-379 | an object's faces draw without error exactly when every face does |
| Render.FacesItemsFit | UAS/simple_3d_room.py:327-379 | every entry made for an object fits it, with at most one entry per face |
| Render.CameraVerts | UAS/simple_3d_room.py:307-324 | one camera-space vertex per model vertex |
| Render.RenderListOk | UAS/simple_3d_room.py:305-379 | the frame's render list is built without error exactly when every object's faces are |
| Render.RenderListFits | UAS/simple_3d_room.py:305-379 | every render-list entry is tagged with an existing object, fits that object, and so is never nearer than the limit |
| Render.Draw | UAS/simple_3d_room.py:303-382 | the sorted list exists exactly when the unsorted one does, is a permutation of it, and is in non-increasing depth order |
| Render.RenderableDraws | UAS/simple_3d_room.py:327-379 | an object whose indices are valid and which, unless a line, has no two-vertex face draws without error |
| Render.BoxDraws | UAS/simple_3d_room.py:327-379 | every object made from `create_box` draws without error, from any camera |
| Render.Frame | UAS/simple_3d_room.py:290-291 | one frame updates each object once and keeps the list's length |
| Render.FrameKeepsRange | UAS/simple_3d_room.py:290-291 | frames keep every object's scale within range |
| Sorting.Insert | UAS/simple_3d_room.py:382 | inserting into a list sorted by key keeps it sorted and adds exactly the element |
| Sorting.Sort | UAS/simple_3d_room.py:382 | the sort returns a permutation of its input, ordered by key |

## Left out

- Canvas and window plumbing is left out: tkinter canvas calls, `render_pixels`, labels, key and mouse bindings, `after` loops, `on_closing`, the `on_click` tag lookup and the camera-angle keys in `update_loop`. It is I/O and event wiring.
- `rotate`, the sun's rays, the cylinder's `cos`/`sin` ring points, `math.sqrt` in `normalize` and the camera's `cos`/`sin` are inputs. Real trigonometry and square roots have no exact counterpart. The camera takes its cosines, sines and zoom as data, the cylinder takes a unit-circle function, and lighting takes `sqrt` as a function.
- IEEE-754 floating point is left out. All arithmetic is exact, so the DDA running sums equal their closed form, and rounding drift in long lines or in the 0.01 easing threshold is not modelled.
- `int(s, 16)` is modelled for ASCII text only. Unicode digits and Unicode white space, which Python also accepts, are left out.
- Sorting.Sort: proved sorted and a permutation, but not stable. Python's `sort(reverse=True)` keeps equal keys in their original order; no lemma states which order the model gives them.
- Render.Draw: the render list is proved a permutation in non-increasing depth, but the order of faces of equal depth, and so which of them is painted on top, is not stated.
- The render-list tag `f"obj:{i}"` is kept as the object index `i`, because the string form only feeds `on_click`.
- `CircleMidpoint.DrawCircleMidpoint` takes integer centre and radius, as every call in the scene passes. The fill's row test `abs(p[1] - py) < 1` is then equality, and fractional centres are not modelled.
- Transforms.Translate: its own contract states only that the length is kept. What each point becomes is stated by TranslateInverse, TranslateCompose and ReflectTwiceTranslates.
- Transforms.Scale: its own contract states only the length. The point-wise content is ScaleOffsets, ScaleFixesPivot, ScaleIdentity and ScaleInverse.
- Transforms.ReflectY: its own contract states only the length. The content is ReflectInvolution, ReflectTwiceTranslates and ReflectFixesAxis.
- Render.CameraVerts: its contract states only the length. The transform itself is `ToCamera`, described by the Camera lemmas.
- Render.Frame: its contract states only the length. The per-object effect is FrameKeepsRange together with the `Objects.Update` lemmas.
- CircleMidpoint.CirclePoints: its contract states only the count of 8 per round. The content is CircleBlocks, CircleSymmetric and CircleNear.
- Mesh.CylinderFaces: its contract states only the face count. The contents are CylinderFacesShape and CylinderFacesInRange.
- The scene content is left out: `draw_house`, `draw_flowers`, `draw_cloud`, `draw_lake`, `draw_ground` and `init_scene`. They are fixed coordinate literals fed to the modelled operations.
- The other files of the repository are not part of this model: the OpenGL viewers in `UAS/`, the games and the exercise scripts.

## Findings

| source | as written | input that shows it | evidently intended | confidence | as-written member | corrected member |
|---|---|---|---|---|---|---|
| UAS/simple_3d_room.py:69-70 | the vertex loop appends the top and bottom ring points in turn, so top points sit at even indices and bottom points at odd ones, while the faces (lines 74-87) index the top ring as `0 .. n-1` and the bottom ring as `n .. 2n-1` | `segments = 2`, `height = 2`: the top cap `[0, 1]` joins a top point (`y = 1`) and a bottom point (`y = -1`) | all top points first, then all bottom points, so that each cap is flat and each side quad upright | not executed | Mesh.CylinderTopCapMixesRings | Mesh.CylinderBlockTopFlat |
