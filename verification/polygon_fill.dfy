/** `draw_polygon`: one DDA line per edge, the closing edge from the last
    vertex back to the first included, and, when filling, a scan-line pass
    that pairs the sorted edge crossings of each row even-odd. */
module PolygonFill {
  import opened Numeric
  import opened Results
  import opened PixelBuffer
  import opened Transforms
  import opened LineDda
  import opened Sorting

  // ---------------------------------------------------------------- outline

  /** The end of edge `i`: the next vertex, wrapping round to the first. */
  function EdgeEnd(pts: seq<Point>, i: int): Point
    requires 0 <= i < |pts|
  {
    if i + 1 < |pts| then pts[i + 1] else pts[0]
  }

  /** The wrap-around is `draw_polygon`'s `points[(i + 1) % len(points)]`. */
  lemma EdgeEndWraps(pts: seq<Point>, i: int)
    requires 0 <= i < |pts|
    ensures EdgeEnd(pts, i) == pts[(i + 1) % |pts|]
  {
    if i + 1 < |pts| {
      ModBelow(i + 1, |pts|);
    } else {
      assert (i + 1) % |pts| == 0;
    }
  }

  lemma ModBelow(a: int, n: int)
    requires 0 <= a < n
    ensures a % n == a
  {
  }

  /** The pixels of edge `i`, as `draw_line_dda` samples them. */
  function Edge(pts: seq<Point>, i: int): seq<Pixel>
    requires 0 <= i < |pts|
  {
    LineSamples(pts[i].x, pts[i].y, EdgeEnd(pts, i).x, EdgeEnd(pts, i).y)
  }

  /** The pixels of the first `k` edges, in drawing order. */
  function EdgesUpTo(pts: seq<Point>, k: nat): seq<Pixel>
    requires k <= |pts|
  {
    if k == 0 then [] else EdgesUpTo(pts, k - 1) + Edge(pts, k - 1)
  }

  function Outline(pts: seq<Point>): seq<Pixel> {
    EdgesUpTo(pts, |pts|)
  }

  /** The pixel a vertex truncates to. */
  function VertexPixel(p: Point): Pixel {
    (Trunc(p.x), Trunc(p.y))
  }

  predicate Integral(p: Point) {
    p.x == p.x.Floor as real && p.y == p.y.Floor as real
  }

  lemma {:induction false} EdgesUpToMembers(pts: seq<Point>, k: nat)
    requires k <= |pts|
    ensures forall q :: q in EdgesUpTo(pts, k) <==> exists i :: 0 <= i < k && q in Edge(pts, i)
  {
    if k > 0 {
      EdgesUpToMembers(pts, k - 1);
    }
  }

  /** The outline is exactly the union of the edges' DDA lines, the closing
      edge included. */
  lemma OutlineIsEdges(pts: seq<Point>)
    ensures forall q :: q in Outline(pts) <==> exists i :: 0 <= i < |pts| && q in Edge(pts, i)
  {
    EdgesUpToMembers(pts, |pts|);
  }

  /** Every vertex's pixel is on the outline: each edge starts at its vertex. */
  lemma OutlineHasVertices(pts: seq<Point>)
    ensures forall i :: 0 <= i < |pts| ==> VertexPixel(pts[i]) in Outline(pts)
  {
    OutlineIsEdges(pts);
    forall i | 0 <= i < |pts|
      ensures VertexPixel(pts[i]) in Outline(pts)
    {
      assert Edge(pts, i)[0] == VertexPixel(pts[i]);
    }
  }

  /** With integer vertices each edge ends exactly on the next vertex. */
  lemma EdgeReachesNext(pts: seq<Point>, i: int)
    requires 0 <= i < |pts|
    requires Integral(pts[i]) && Integral(EdgeEnd(pts, i))
    ensures var e := Edge(pts, i); |e| > 0 && e[|e| - 1] == VertexPixel(EdgeEnd(pts, i))
  {
    var a, b := pts[i], EdgeEnd(pts, i);
    LineReachesEnd(a.x.Floor, a.y.Floor, b.x.Floor, b.y.Floor);
    TruncOfInt(b.x.Floor);
    TruncOfInt(b.y.Floor);
  }

  /** With integer vertices the outline is a closed path: the last pixel the
      closing edge draws is the first pixel of the first edge. */
  lemma OutlineCloses(pts: seq<Point>)
    requires |pts| > 0
    requires forall i :: 0 <= i < |pts| ==> Integral(pts[i])
    ensures var o := Outline(pts); |o| > 0 && o[|o| - 1] == o[0] == VertexPixel(pts[0])
  {
    var n := |pts|;
    assert Integral(pts[n - 1]) && EdgeEnd(pts, n - 1) == pts[0];
    EdgeReachesNext(pts, n - 1);
    ClosingEdgeLast(pts);
    FirstEdgeLeads(pts, n);
  }

  /** The outline's last pixel is the closing edge's last pixel. */
  lemma ClosingEdgeLast(pts: seq<Point>)
    requires |pts| > 0
    ensures var o, e := Outline(pts), Edge(pts, |pts| - 1); |o| > 0 && o[|o| - 1] == e[|e| - 1]
  {
    var e := Edge(pts, |pts| - 1);
    var pre := EdgesUpTo(pts, |pts| - 1);
    assert Outline(pts) == pre + e;
  }

  lemma {:induction false} FirstEdgeLeads(pts: seq<Point>, k: nat)
    requires 0 < k <= |pts|
    ensures |EdgesUpTo(pts, k)| > 0 && EdgesUpTo(pts, k)[0] == VertexPixel(pts[0])
  {
    if k > 1 {
      FirstEdgeLeads(pts, k - 1);
    } else {
      assert EdgesUpTo(pts, 1) == Edge(pts, 0);
    }
  }

  // -------------------------------------------------------------- crossings

  /** `draw_polygon`'s edge test at scan row `y`: a non-horizontal edge whose
      y-range, closed below and open above, contains the row. */
  predicate Crosses(a: Point, b: Point, y: int) {
    a.y != b.y && Min(a.y, b.y) <= y as real < Max(a.y, b.y)
  }

  /** Where the edge from `a` to `b` meets row `y`. */
  function CrossX(a: Point, b: Point, y: int): real
    requires a.y != b.y
  {
    a.x + (y as real - a.y) * (b.x - a.x) / (b.y - a.y)
  }

  /** The crossings of row `y` with the first `k` edges, in edge order. */
  function CrossingsUpTo(pts: seq<Point>, y: int, k: nat): seq<real>
    requires k <= |pts|
  {
    if k == 0 then []
    else
      var a, b := pts[k - 1], EdgeEnd(pts, k - 1);
      CrossingsUpTo(pts, y, k - 1) + (if Crosses(a, b, y) then [CrossX(a, b, y)] else [])
  }

  /** The `intersections` list of row `y` before sorting. */
  function Crossings(pts: seq<Point>, y: int): seq<real> {
    CrossingsUpTo(pts, y, |pts|)
  }

  /** A point is at or below the row when its y does not exceed it. */
  predicate AtOrBelow(p: Point, y: int) {
    p.y <= y as real
  }

  /** The half-open test is a change of side: an edge crosses the row exactly
      when one end is at or below it and the other above; in particular a
      horizontal edge never crosses. */
  lemma CrossesIffSides(a: Point, b: Point, y: int)
    ensures Crosses(a, b, y) <==> AtOrBelow(a, y) != AtOrBelow(b, y)
  {
  }

  /** Along the open chain of edges `0 .. k-1`, the crossing count is odd
      exactly when the chain's two ends lie on opposite sides of the row. */
  lemma {:induction false} ChainParity(pts: seq<Point>, y: int, k: nat)
    requires k < |pts|
    ensures (|CrossingsUpTo(pts, y, k)| % 2 == 1) == (AtOrBelow(pts[0], y) != AtOrBelow(pts[k], y))
  {
    if k > 0 {
      ChainParity(pts, y, k - 1);
      var a, b := pts[k - 1], pts[k];
      assert EdgeEnd(pts, k - 1) == b;
      CrossingCount(pts, y, k);
      CrossesIffSides(a, b, y);
    }
  }

  /** Edge `k - 1` adds one crossing when it crosses the row, none otherwise. */
  lemma CrossingCount(pts: seq<Point>, y: int, k: nat)
    requires 0 < k <= |pts|
    ensures |CrossingsUpTo(pts, y, k)| ==
      |CrossingsUpTo(pts, y, k - 1)| + if Crosses(pts[k - 1], EdgeEnd(pts, k - 1), y) then 1 else 0
  {
  }

  /** Every row meets the closed polygon an even number of times, so the
      pairing loop never meets an unpaired crossing. */
  lemma CrossingsEven(pts: seq<Point>, y: int)
    ensures |Crossings(pts, y)| % 2 == 0
  {
    var n := |pts|;
    if n > 0 {
      ChainParity(pts, y, n - 1);
      assert EdgeEnd(pts, n - 1) == pts[0];
      CrossingCount(pts, y, n);
      CrossesIffSides(pts[n - 1], pts[0], y);
    }
  }

  /** The crossing of an edge with a row lies between the edge's end x values. */
  lemma CrossXBetween(a: Point, b: Point, y: int)
    requires Crosses(a, b, y)
    ensures Min(a.x, b.x) <= CrossX(a, b, y) <= Max(a.x, b.x)
  {
    var t := RowFraction(a.y, b.y, y as real);
    assert t == (y as real - a.y) / (b.y - a.y);
    ProductOverQuotient(y as real - a.y, b.x - a.x, b.y - a.y);
    assert CrossX(a, b, y) == a.x + t * (b.x - a.x);
    FractionBetween(a.x, b.x, t);
  }

  /** How far along the edge's y-range the row lies. */
  function RowFraction(y0: real, y1: real, y: real): (t: real)
    requires y0 != y1 && Min(y0, y1) <= y <= Max(y0, y1)
    ensures 0.0 <= t <= 1.0
  {
    if y0 < y1 then
      UnitFraction(y - y0, y1 - y0);
      (y - y0) / (y1 - y0)
    else
      UnitFraction(y0 - y, y0 - y1);
      NegateQuotient(y - y0, y1 - y0);
      (y - y0) / (y1 - y0)
  }

  lemma UnitFraction(num: real, den: real)
    requires 0.0 <= num <= den && den > 0.0
    ensures 0.0 <= num / den <= 1.0
  {
    DivMonotone(0.0, num, den);
    DivMonotone(num, den, den);
  }

  lemma NegateQuotient(num: real, den: real)
    requires den != 0.0
    ensures num / den == (-num) / (-den)
  {
  }

  lemma ProductOverQuotient(p: real, q: real, d: real)
    requires d != 0.0
    ensures p * q / d == (p / d) * q
  {
  }

  /** The smallest of a non-empty list of reals, as Python's `min`. */
  function Lowest(s: seq<real>): (m: real)
    requires |s| > 0
    ensures m in s && forall v :: v in s ==> m <= v
  {
    if |s| == 1 then s[0]
    else
      var rest := Lowest(s[1..]);
      assert s == [s[0]] + s[1..];
      Min(s[0], rest)
  }

  /** The largest of a non-empty list of reals, as Python's `max`. */
  function Highest(s: seq<real>): (m: real)
    requires |s| > 0
    ensures m in s && forall v :: v in s ==> v <= m
  {
    if |s| == 1 then s[0]
    else
      var rest := Highest(s[1..]);
      assert s == [s[0]] + s[1..];
      Max(s[0], rest)
  }

  function Xs(pts: seq<Point>): (r: seq<real>)
    ensures |r| == |pts| && forall i :: 0 <= i < |pts| ==> r[i] == pts[i].x
  {
    seq(|pts|, i requires 0 <= i < |pts| => pts[i].x)
  }

  function Ys(pts: seq<Point>): (r: seq<real>)
    ensures |r| == |pts| && forall i :: 0 <= i < |pts| ==> r[i] == pts[i].y
  {
    seq(|pts|, i requires 0 <= i < |pts| => pts[i].y)
  }

  /** Every vertex x lies in `[lo, hi]`. */
  predicate XsWithin(pts: seq<Point>, lo: real, hi: real) {
    forall i :: 0 <= i < |pts| ==> lo <= pts[i].x <= hi
  }

  predicate ValuesWithin(s: seq<real>, lo: real, hi: real) {
    forall v :: v in s ==> lo <= v <= hi
  }

  /** The least and greatest vertex x bound every vertex x. */
  lemma XsWithinHull(pts: seq<Point>)
    requires |pts| > 0
    ensures XsWithin(pts, Lowest(Xs(pts)), Highest(Xs(pts)))
  {
    var xs := Xs(pts);
    forall i | 0 <= i < |pts|
      ensures Lowest(xs) <= pts[i].x <= Highest(xs)
    {
      assert xs[i] in xs;
    }
  }

  /** Every crossing of the first `k` edges lies within any x-range holding
      all the vertices. */
  lemma {:induction false} CrossingsUpToWithin(pts: seq<Point>, y: int, k: nat, lo: real, hi: real)
    requires k <= |pts| && XsWithin(pts, lo, hi)
    ensures ValuesWithin(CrossingsUpTo(pts, y, k), lo, hi)
  {
    if k > 0 {
      CrossingsUpToWithin(pts, y, k - 1, lo, hi);
      var a, b := pts[k - 1], EdgeEnd(pts, k - 1);
      if Crosses(a, b, y) {
        CrossXBetween(a, b, y);
      }
    }
  }

  // ------------------------------------------------------------------- fill

  /** The runs the pairing loop paints on row `y` for the sorted list `s`:
      `s[0]..s[1]`, `s[2]..s[3]`, ..., each end truncated; a last unpaired
      value is skipped. */
  function Runs(s: seq<real>, y: int): seq<Pixel>
    decreases |s|
  {
    if |s| < 2 then [] else Span(Trunc(s[0]), Trunc(s[1]), y) + Runs(s[2..], y)
  }

  /** Column `x` lies in the `k`-th pair's run. */
  predicate InPair(s: seq<real>, k: int, x: int)
    requires 0 <= k && 2 * k + 1 < |s|
  {
    Trunc(s[2 * k]) <= x <= Trunc(s[2 * k + 1])
  }

  /** A pixel is painted by the pairing loop exactly when it is on the row
      and inside the run of one of the pairs `(s[2k], s[2k+1])`. */
  lemma {:induction false} RunsMembers(s: seq<real>, y: int)
    ensures forall q: Pixel :: q in Runs(s, y) <==>
      q.1 == y && exists k :: 0 <= k && 2 * k + 1 < |s| && InPair(s, k, q.0)
    decreases |s|
  {
    if |s| >= 2 {
      var rest := s[2..];
      RunsMembers(rest, y);
      forall k | 0 <= k && 2 * k + 1 < |rest|
        ensures forall x :: InPair(rest, k, x) <==> InPair(s, k + 1, x)
      {
        assert rest[2 * k] == s[2 * (k + 1)] && rest[2 * k + 1] == s[2 * (k + 1) + 1];
      }
      forall q: Pixel | q.1 == y && exists k :: 0 <= k && 2 * k + 1 < |s| && InPair(s, k, q.0)
        ensures q in Runs(s, y)
      {
        var k :| 0 <= k && 2 * k + 1 < |s| && InPair(s, k, q.0);
        if k > 0 {
          assert InPair(rest, k - 1, q.0);
        }
      }
      forall q: Pixel | q in Runs(s, y)
        ensures exists k :: 0 <= k && 2 * k + 1 < |s| && InPair(s, k, q.0)
      {
        if q !in Span(Trunc(s[0]), Trunc(s[1]), y) {
          var k :| 0 <= k && 2 * k + 1 < |rest| && InPair(rest, k, q.0);
          assert InPair(s, k + 1, q.0);
        } else {
          assert InPair(s, 0, q.0);
        }
      }
    }
  }

  /** A trailing unpaired value contributes nothing. */
  lemma {:induction false} RunsDropTrailing(s: seq<real>, y: int)
    requires |s| % 2 == 1
    ensures Runs(s, y) == Runs(s[..|s| - 1], y)
    decreases |s|
  {
    if |s| > 1 {
      var t := s[..|s| - 1];
      assert s[2..][..|s[2..]| - 1] == t[2..];
      RunsDropTrailing(s[2..], y);
    }
  }

  /** The sort key of `intersections.sort()`: each intersection's own value. */
  function OwnValue(x: real): real {
    x
  }

  /** The crossings of row `y` in ascending order, as `intersections.sort()`
      leaves them. */
  function SortedCrossings(pts: seq<Point>, y: int): seq<real> {
    Sort(Crossings(pts, y), OwnValue)
  }

  /** The pixels the fill paints on row `y`. */
  function RowFill(pts: seq<Point>, y: int): seq<Pixel> {
    Runs(SortedCrossings(pts, y), y)
  }

  /** On each row the sorted crossings come in complete pairs and the row's
      pixels are exactly the runs between the members of each pair. */
  lemma RowFillPairs(pts: seq<Point>, y: int)
    ensures var s := SortedCrossings(pts, y);
      |s| % 2 == 0 &&
      SortedBy(s, OwnValue) &&
      forall q: Pixel :: q in RowFill(pts, y) <==>
        q.1 == y && exists k :: 0 <= k && 2 * k + 1 < |s| && InPair(s, k, q.0)
  {
    CrossingsEven(pts, y);
    RunsMembers(SortedCrossings(pts, y), y);
  }

  /** The rows `lo .. hi` of the fill, top to bottom. */
  function FillRows(pts: seq<Point>, lo: int, hi: int): seq<Pixel>
    decreases hi - lo
  {
    if lo > hi then [] else RowFill(pts, lo) + FillRows(pts, lo + 1, hi)
  }

  function MinY(pts: seq<Point>): real
    requires |pts| > 0
  {
    Lowest(Ys(pts))
  }

  function MaxY(pts: seq<Point>): real
    requires |pts| > 0
  {
    Highest(Ys(pts))
  }

  /** The scan-line fill: rows from `int(min y)` to `int(max y)`. */
  function Fill(pts: seq<Point>): seq<Pixel>
    requires |pts| > 0
  {
    FillRows(pts, Trunc(MinY(pts)), Trunc(MaxY(pts)))
  }

  lemma {:induction false} FillRowsMembers(pts: seq<Point>, lo: int, hi: int)
    ensures forall q: Pixel :: q in FillRows(pts, lo, hi) <==> lo <= q.1 <= hi && q in RowFill(pts, q.1)
    decreases hi - lo
  {
    if lo <= hi {
      FillRowsMembers(pts, lo + 1, hi);
      RunsMembers(SortedCrossings(pts, lo), lo);
    }
  }

  /** Sorting keeps the crossings, so they stay within the vertices' x-range. */
  lemma SortedWithin(pts: seq<Point>, y: int, lo: real, hi: real)
    requires XsWithin(pts, lo, hi)
    ensures ValuesWithin(SortedCrossings(pts, y), lo, hi)
  {
    var xs := Crossings(pts, y);
    var s := SortedCrossings(pts, y);
    CrossingsUpToWithin(pts, y, |pts|, lo, hi);
    assert ValuesWithin(xs, lo, hi);
    assert multiset(s) == multiset(xs);
    forall v | v in s
      ensures lo <= v <= hi
    {
      assert v in multiset(s);
      assert v in xs;
    }
  }

  /** Each row's fill stays between the truncated extreme vertex x values. */
  lemma RowFillWithin(pts: seq<Point>, y: int, lo: real, hi: real)
    requires XsWithin(pts, lo, hi)
    ensures forall q :: q in RowFill(pts, y) ==> Trunc(lo) <= q.0 <= Trunc(hi)
  {
    var s := SortedCrossings(pts, y);
    SortedWithin(pts, y, lo, hi);
    RunsMembers(s, y);
    forall q | q in RowFill(pts, y)
      ensures Trunc(lo) <= q.0 <= Trunc(hi)
    {
      var k :| 0 <= k && 2 * k + 1 < |s| && InPair(s, k, q.0);
      assert s[2 * k] in s && s[2 * k + 1] in s;
      TruncMonotone(lo, s[2 * k]);
      TruncMonotone(s[2 * k + 1], hi);
    }
  }

  /** Every filled pixel lies in the polygon's bounding box, truncated: rows
      `int(min y) .. int(max y)`, columns `int(min x) .. int(max x)`. */
  lemma FillWithinBox(pts: seq<Point>)
    requires |pts| > 0
    ensures forall q :: q in Fill(pts) ==>
      Trunc(MinY(pts)) <= q.1 <= Trunc(MaxY(pts)) &&
      Trunc(Lowest(Xs(pts))) <= q.0 <= Trunc(Highest(Xs(pts)))
  {
    var minX, maxX := Lowest(Xs(pts)), Highest(Xs(pts));
    FillRowsMembers(pts, Trunc(MinY(pts)), Trunc(MaxY(pts)));
    XsWithinHull(pts);
    forall q | q in Fill(pts)
      ensures Trunc(minX) <= q.0 <= Trunc(maxX)
    {
      RowFillWithin(pts, q.1, minX, maxX);
    }
  }

  /** The pixels `draw_polygon` paints, outline first. */
  function PolygonPixels(pts: seq<Point>, fill: bool): seq<Pixel>
    requires fill ==> |pts| > 0
  {
    Outline(pts) + (if fill then Fill(pts) else [])
  }

  // ---------------------------------------------------------------- methods

  /** The edge loop: one `draw_line_dda` per edge. */
  method DrawOutline(buf: Pixels, pts: seq<Point>, c: Color) returns (out: Pixels)
    ensures out == Paint(buf, Outline(pts), c)
  {
    out := buf;
    var i := 0;
    ghost var drawn: seq<Pixel> := [];
    while i < |pts|
      invariant 0 <= i <= |pts|
      invariant drawn == EdgesUpTo(pts, i)
      invariant out == Paint(buf, drawn, c)
    {
      var a, b := pts[i], pts[(i + 1) % |pts|];
      out := DrawLineDda(out, a.x, a.y, b.x, b.y, c);
      PaintAppend(buf, drawn, LineSamples(a.x, a.y, b.x, b.y), c);
      OutlineStep(pts, i, a, b, drawn);
      drawn := drawn + LineSamples(a.x, a.y, b.x, b.y);
      i := i + 1;
    }
  }

  /** The line from vertex `i` to the next one extends the first `i` edges
      by edge `i`. */
  lemma OutlineStep(pts: seq<Point>, i: nat, a: Point, b: Point, drawn: seq<Pixel>)
    requires i < |pts| && a == pts[i] && b == pts[(i + 1) % |pts|]
    requires drawn == EdgesUpTo(pts, i)
    ensures drawn + LineSamples(a.x, a.y, b.x, b.y) == EdgesUpTo(pts, i + 1)
  {
    EdgeEndWraps(pts, i);
  }

  /** The crossing loop of one row. */
  method ScanRow(pts: seq<Point>, y: int) returns (xs: seq<real>)
    ensures xs == Crossings(pts, y)
  {
    xs := [];
    var i := 0;
    while i < |pts|
      invariant 0 <= i <= |pts|
      invariant xs == CrossingsUpTo(pts, y, i)
    {
      var a, b := pts[i], pts[(i + 1) % |pts|];
      EdgeEndWraps(pts, i);
      if a.y != b.y {
        if Min(a.y, b.y) <= y as real < Max(a.y, b.y) {
          xs := xs + [CrossX(a, b, y)];
        }
      }
      i := i + 1;
    }
  }

  /** `for x in range(a, b + 1): put_pixel(x, y)`. */
  method PaintSpan(buf: Pixels, a: int, b: int, y: int, c: Color) returns (out: Pixels)
    ensures out == Paint(buf, Span(a, b, y), c)
  {
    ghost var run := Span(a, b, y);
    SpanIndex(a, b, y);
    out := buf;
    var x := a;
    while x <= b
      invariant a <= x && x - a <= |run|
      invariant out == Paint(buf, run[..x - a], c)
    {
      PaintPrefix(buf, run, x - a, c);
      out := Plot(out, (x, y), c);
      x := x + 1;
    }
    assert run[..x - a] == run;
  }

  /** The pairing loop over the sorted crossings of one row. */
  method PaintRuns(buf: Pixels, s: seq<real>, y: int, c: Color) returns (out: Pixels)
    ensures out == Paint(buf, Runs(s, y), c)
  {
    out := buf;
    var i := 0;
    while i < |s|
      invariant 0 <= i <= |s| + 1 && i % 2 == 0
      invariant i <= |s| ==> Paint(out, Runs(s[i..], y), c) == Paint(buf, Runs(s, y), c)
      invariant i > |s| ==> out == Paint(buf, Runs(s, y), c)
      decreases |s| - i
    {
      if i + 1 < |s| {
        var xStart := Trunc(s[i]);
        var xEnd := Trunc(s[i + 1]);
        assert s[i..][2..] == s[i + 2..];
        PaintAppend(out, Span(xStart, xEnd, y), Runs(s[i + 2..], y), c);
        out := PaintSpan(out, xStart, xEnd, y, c);
      }
      i := i + 2;
    }
    if i == |s| {
      assert s[i..] == [];
    }
  }

  /** One row of the fill: collect the crossings, sort, paint the pairs. */
  method FillRow(buf: Pixels, pts: seq<Point>, y: int, c: Color) returns (out: Pixels)
    ensures out == Paint(buf, RowFill(pts, y), c)
  {
    var xs := ScanRow(pts, y);
    var sorted := Sort(xs, OwnValue);
    out := PaintRuns(buf, sorted, y, c);
  }

  /** The row loop `for y in range(lo, hi + 1)`, one row per step. */
  method FillScan(buf: Pixels, pts: seq<Point>, lo: int, hi: int, c: Color) returns (out: Pixels)
    ensures out == Paint(buf, FillRows(pts, lo, hi), c)
    decreases hi - lo
  {
    if lo > hi {
      return buf;
    }
    var painted := FillRow(buf, pts, lo, c);
    FillRowsStep(buf, pts, lo, hi, c);
    out := FillScan(painted, pts, lo + 1, hi, c);
  }

  lemma FillRowsStep(buf: Pixels, pts: seq<Point>, y: int, hi: int, c: Color)
    requires y <= hi
    ensures Paint(buf, FillRows(pts, y, hi), c) ==
      Paint(Paint(buf, RowFill(pts, y), c), FillRows(pts, y + 1, hi), c)
  {
    PaintAppend(buf, RowFill(pts, y), FillRows(pts, y + 1, hi), c);
  }

  /** `draw_polygon`: the outline, then with `fill` the rows from `int(min y)`
      to `int(max y)`. Filling an empty polygon fails, as Python's `min` of
      an empty sequence raises. */
  method DrawPolygon(buf: Pixels, pts: seq<Point>, c: Color, fill: bool)
    returns (r: Result<Pixels, string>)
    ensures r.Err? <==> fill && |pts| == 0
    ensures r.Ok? ==> r.value == Paint(buf, PolygonPixels(pts, fill), c)
  {
    var out := DrawOutline(buf, pts, c);
    if !fill {
      assert PolygonPixels(pts, fill) == Outline(pts);
      return Ok(out);
    }
    if |pts| == 0 {
      return Err("min() arg is an empty sequence");
    }
    var minY := Trunc(MinY(pts));
    var maxY := Trunc(MaxY(pts));
    PaintAppend(buf, Outline(pts), Fill(pts), c);
    out := FillScan(out, pts, minY, maxY, c);
    return Ok(out);
  }
}
