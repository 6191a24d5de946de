/** `draw_circle_midpoint`: the midpoint circle algorithm on one octant,
    expanded by 8-way symmetry, optionally filled row by row. Every caller
    passes integer centres and radii, so the model works on `int`. */
module CircleMidpoint {
  import opened PixelBuffer

  /** The square of an integer. The proofs below use it only through the
      identities `Sq(n + 1) == Sq(n) + 2n + 1` and `Sq(-n) == Sq(n)`. */
  function Sq(n: int): int {
    n * n
  }

  lemma SqSucc(n: int)
    ensures Sq(n + 1) == Sq(n) + 2 * n + 1
  {
  }

  lemma SqNeg(n: int)
    ensures Sq(-n) == Sq(n)
  {
  }

  /** What the loop keeps true of its state `(x, y, d)` for radius `r`: the
      decision variable is the midpoint test `(x+1)^2 + (y-1/2)^2 - r^2`
      shifted by 1/4, and while `x <= y` the point `(x, y)` is within `y` of
      the circle in squared distance. */
  predicate MidpointState(r: int, x: int, y: int, d: int) {
    && 0 <= x && y <= r
    && d == Sq(x + 1) + Sq(y) - y - Sq(r)
    && (x <= y ==> InBand(r, (x, y)))
  }

  /** The next `y` and decision value after one round: `y` steps
      down exactly when the midpoint lies outside the circle. */
  function NextY(y: int, d: int): int {
    if d < 0 then y else y - 1
  }

  function NextD(x: int, y: int, d: int): int {
    if d < 0 then d + 2 * x + 3 else d + 2 * (x - y) + 5
  }

  /** One loop iteration keeps the state invariant. */
  lemma MidpointStep(r: int, x: int, y: int, d: int)
    requires MidpointState(r, x, y, d) && x <= y
    ensures MidpointState(r, x + 1, NextY(y, d), NextD(x, y, d))
  {
    SqSucc(x);
    SqSucc(x + 1);
    SqSucc(y - 1);
  }

  /** The octant offsets `(x, y)` the loop visits from state `(x, y, d)`;
      `x` rises by one per iteration, so `y - x` bounds the remaining rounds. */
  function OctantFrom(r: int, x: int, y: int, d: int): (o: seq<(int, int)>)
    requires MidpointState(r, x, y, d)
    ensures |o| > 0 <==> x <= y
    ensures |o| > 0 ==> o[0] == (x, y)
    ensures forall i :: 0 <= i < |o| ==> o[i].0 == x + i
    decreases y - x
  {
    if x > y then []
    else
      MidpointStep(r, x, y, d);
      [(x, y)] + OctantFrom(r, x + 1, NextY(y, d), NextD(x, y, d))
  }

  /** The squared distance of offset `p` from the centre is within `p.1` of
      `r^2`. */
  predicate InBand(r: int, p: (int, int)) {
    -p.1 <= Sq(p.0) + Sq(p.1) - Sq(r) <= p.1
  }

  /** Every offset the loop emits lies in the octant `0 <= x <= y <= r`, `y`
      never rises and drops by at most one per step, and every offset is in
      the band around the circle. */
  predicate OctantShape(r: int, o: seq<(int, int)>) {
    && (forall i :: 0 <= i < |o| ==> 0 <= o[i].0 <= o[i].1 <= r)
    && (forall i :: 0 < i < |o| ==> o[i - 1].1 - 1 <= o[i].1 <= o[i - 1].1)
    && (forall i :: 0 <= i < |o| ==> InBand(r, o[i]))
  }

  lemma {:induction false} OctantFromShape(r: int, x: int, y: int, d: int)
    requires MidpointState(r, x, y, d)
    ensures OctantShape(r, OctantFrom(r, x, y, d))
    ensures forall i :: 0 <= i < |OctantFrom(r, x, y, d)| ==> OctantFrom(r, x, y, d)[i].1 <= y
    decreases y - x
  {
    if x <= y {
      MidpointStep(r, x, y, d);
      OctantFromShape(r, x + 1, NextY(y, d), NextD(x, y, d));
      ShapeCons(r, (x, y), OctantFrom(r, x + 1, NextY(y, d), NextD(x, y, d)));
    }
  }

  /** Putting an in-octant, in-band offset in front of a shaped run whose
      first `y` is at most one below it keeps the shape. */
  lemma ShapeCons(r: int, p: (int, int), rest: seq<(int, int)>)
    requires OctantShape(r, rest)
    requires 0 <= p.0 <= p.1 <= r && InBand(r, p)
    requires forall i :: 0 <= i < |rest| ==> rest[i].1 <= p.1
    requires |rest| > 0 ==> p.1 - 1 <= rest[0].1
    ensures OctantShape(r, [p] + rest)
    ensures forall i :: 0 <= i < |rest| + 1 ==> ([p] + rest)[i].1 <= p.1
  {
    var o := [p] + rest;
    assert forall i :: 0 < i < |o| ==> o[i] == rest[i - 1];
  }

  /** The octant offsets for radius `r`, starting from `x = 0, y = r,
      d = 1 - r`. */
  function Octant(r: int): (o: seq<(int, int)>)
    ensures r < 0 ==> o == []
    ensures r >= 0 ==> |o| > 0 && o[0] == (0, r)
    ensures forall i :: 0 <= i < |o| ==> o[i].0 == i
  {
    OctantFrom(r, 0, r, 1 - r)
  }

  /** The offsets the loop visits for radius `r` have the octant shape. */
  lemma OctantShaped(r: int)
    ensures OctantShape(r, Octant(r))
  {
    OctantFromShape(r, 0, r, 1 - r);
  }

  /** The loop runs at most `r + 1` times. */
  lemma OctantLength(r: int)
    ensures |Octant(r)| <= if r < 0 then 0 else r + 1
  {
    var o := Octant(r);
    OctantShaped(r);
    if |o| > 0 {
      assert o[|o| - 1].0 == |o| - 1 <= r;
    }
  }

  /** Point `j` of the 8 symmetric points one iteration emits for offset
      `(x, y)`, in the order of `draw_circle_midpoint`'s list `pts`: the first four use `(x, y)` and the
      last four `(y, x)`; odd `j` negate the first offset, and `j % 4 >= 2`
      negate the second. */
  function Emit(xc: int, yc: int, x: int, y: int, j: int): Pixel
    requires 0 <= j < 8
  {
    var a, b := if j < 4 then x else y, if j < 4 then y else x;
    (xc + (if j % 2 == 0 then a else -a), yc + (if j % 4 < 2 then b else -b))
  }

  /** Where the mirror image of point `j` sits among the 8: across the
      vertical axis, across the horizontal axis, and with the offsets
      swapped. */
  function AcrossX(j: int): int {
    if j % 2 == 0 then j + 1 else j - 1
  }

  function AcrossY(j: int): int {
    if j % 4 < 2 then j + 2 else j - 2
  }

  function Swapped(j: int): int {
    (if j < 4 then 4 else 0) + 2 * (j % 2) + (j % 4) / 2
  }

  /** The 8 points of one iteration are closed under both reflections and
      the swap of offsets. */
  lemma MirrorAcrossX(xc: int, yc: int, x: int, y: int, j: int)
    requires 0 <= j < 8
    ensures 0 <= AcrossX(j) < 8
    ensures var p := Emit(xc, yc, x, y, j);
      Emit(xc, yc, x, y, AcrossX(j)) == (2 * xc - p.0, p.1)
  {
  }

  lemma MirrorAcrossY(xc: int, yc: int, x: int, y: int, j: int)
    requires 0 <= j < 8
    ensures 0 <= AcrossY(j) < 8
    ensures var p := Emit(xc, yc, x, y, j);
      Emit(xc, yc, x, y, AcrossY(j)) == (p.0, 2 * yc - p.1)
  {
  }

  lemma MirrorSwapped(xc: int, yc: int, x: int, y: int, j: int)
    requires 0 <= j < 8
    ensures 0 <= Swapped(j) < 8
    ensures var p := Emit(xc, yc, x, y, j);
      Emit(xc, yc, x, y, Swapped(j)) == (xc + (p.1 - yc), yc + (p.0 - xc))
  {
  }

  /** The mirror images of point `i` of `pts` are points of `pts` too:
      across `x = xc`, across `y = yc`, and with the offsets from the centre
      swapped. */
  predicate MirroredAt(pts: seq<Pixel>, i: int, xc: int, yc: int)
    requires 0 <= i < |pts|
  {
    && (2 * xc - pts[i].0, pts[i].1) in pts
    && (pts[i].0, 2 * yc - pts[i].1) in pts
    && (xc + (pts[i].1 - yc), yc + (pts[i].0 - xc)) in pts
  }

  /** Closed under both reflections and the swap of offsets. */
  predicate Symmetric(pts: seq<Pixel>, xc: int, yc: int) {
    forall i :: 0 <= i < |pts| ==> MirroredAt(pts, i, xc, yc)
  }

  /** `p` is no further than `r` from the centre in either axis, and its
      squared distance from the centre is within `r` of `r^2`. */
  predicate NearCircle(p: Pixel, xc: int, yc: int, r: int) {
    var dx, dy := p.0 - xc, p.1 - yc;
    && -r <= dx <= r && -r <= dy <= r
    && -r <= Sq(dx) + Sq(dy) - Sq(r) <= r
  }

  lemma EightNear(xc: int, yc: int, r: int, x: int, y: int, j: int)
    requires 0 <= x <= y <= r && InBand(r, (x, y))
    requires 0 <= j < 8
    ensures NearCircle(Emit(xc, yc, x, y, j), xc, yc, r)
  {
    var p := Emit(xc, yc, x, y, j);
    if j < 4 {
      NearFromOffsets(p, xc, yc, r, x, y);
    } else {
      NearFromOffsets(p, xc, yc, r, y, x);
    }
  }

  /** A point whose offsets from the centre are `+-a` and `+-b` is as near
      the circle as `(a, b)` is. */
  lemma NearFromOffsets(p: Pixel, xc: int, yc: int, r: int, a: int, b: int)
    requires 0 <= a <= r && 0 <= b <= r && -r <= Sq(a) + Sq(b) - Sq(r) <= r
    requires p.0 - xc == a || p.0 - xc == -a
    requires p.1 - yc == b || p.1 - yc == -b
    ensures NearCircle(p, xc, yc, r)
  {
    SqNeg(a);
    SqNeg(b);
  }

  /** The list `pts` of one iteration for offset `(x, y)`. */
  function Iteration(xc: int, yc: int, x: int, y: int): (pts: seq<Pixel>)
    ensures |pts| == 8
  {
    seq(8, m requires 0 <= m < 8 => Emit(xc, yc, x, y, m))
  }

  /** One more iteration appends its 8 points. */
  lemma {:induction false} EightWayAppend(xc: int, yc: int, o: seq<(int, int)>, p: (int, int))
    ensures EightWay(xc, yc, o + [p]) == EightWay(xc, yc, o) + Iteration(xc, yc, p.0, p.1)
  {
    if |o| > 0 {
      assert (o + [p])[1..] == o[1..] + [p];
      EightWayAppend(xc, yc, o[1..], p);
    } else {
      assert o + [p] == [p];
    }
  }

  /** The points of the iterations for offsets `o`, concatenated in loop
      order. */
  function EightWay(xc: int, yc: int, o: seq<(int, int)>): (pts: seq<Pixel>)
    ensures |pts| == 8 * |o|
  {
    if |o| == 0 then []
    else Iteration(xc, yc, o[0].0, o[0].1) + EightWay(xc, yc, o[1..])
  }

  /** Iteration `k` emits its 8 points at indices `8k .. 8k + 7`. */
  lemma {:induction false} EightWayBlocks(xc: int, yc: int, o: seq<(int, int)>)
    ensures forall k, m :: 0 <= k < |o| && 0 <= m < 8 ==>
      EightWay(xc, yc, o)[8 * k + m] == Emit(xc, yc, o[k].0, o[k].1, m)
  {
    if |o| > 0 {
      var pts := EightWay(xc, yc, o);
      var rest := EightWay(xc, yc, o[1..]);
      EightWayBlocks(xc, yc, o[1..]);
      assert forall k :: 1 <= k < |o| ==> o[k] == o[1..][k - 1];
      assert forall n :: 8 <= n < |pts| ==> pts[n] == rest[n - 8];
    }
  }

  /** All points the outline puts, in order. */
  function CirclePoints(xc: int, yc: int, r: int): (pts: seq<Pixel>)
    ensures |pts| == 8 * |Octant(r)|
  {
    EightWay(xc, yc, Octant(r))
  }

  /** Iteration `k` of the outline loop puts its 8 points at indices
      `8k .. 8k + 7`. */
  lemma CircleBlocks(xc: int, yc: int, r: int)
    ensures forall k, m :: 0 <= k < |Octant(r)| && 0 <= m < 8 ==>
      CirclePoints(xc, yc, r)[8 * k + m] == Emit(xc, yc, Octant(r)[k].0, Octant(r)[k].1, m)
  {
    EightWayBlocks(xc, yc, Octant(r));
  }

  /** Outline point `i` is point `i % 8` of iteration `i / 8`. */
  lemma PointOfIndex(xc: int, yc: int, r: int, i: int)
    requires 0 <= i < |CirclePoints(xc, yc, r)|
    ensures 0 <= i / 8 < |Octant(r)|
    ensures CirclePoints(xc, yc, r)[i] == Emit(xc, yc, Octant(r)[i / 8].0, Octant(r)[i / 8].1, i % 8)
  {
    CircleBlocks(xc, yc, r);
    var k, m := i / 8, i % 8;
    assert i == 8 * k + m;
  }

  /** A negative radius draws nothing; otherwise the four axis points
      `(xc, yc +- r)` and `(xc +- r, yc)` are drawn. */
  lemma CircleEndpoints(xc: int, yc: int, r: int)
    ensures var pts := CirclePoints(xc, yc, r);
      && (r < 0 <==> pts == [])
      && (r >= 0 ==> (xc, yc + r) in pts && (xc, yc - r) in pts &&
                     (xc + r, yc) in pts && (xc - r, yc) in pts)
  {
    var pts := CirclePoints(xc, yc, r);
    CircleBlocks(xc, yc, r);
    if r >= 0 {
      assert pts[0] == (xc, yc + r) && pts[2] == (xc, yc - r);
      assert pts[4] == (xc + r, yc) && pts[5] == (xc - r, yc);
    }
  }

  /** Every outline point is near the circle. */
  lemma CircleNear(xc: int, yc: int, r: int)
    ensures var pts := CirclePoints(xc, yc, r);
      forall i :: 0 <= i < |pts| ==> NearCircle(pts[i], xc, yc, r)
  {
    var pts := CirclePoints(xc, yc, r);
    var o := Octant(r);
    OctantShaped(r);
    forall i | 0 <= i < |pts|
      ensures NearCircle(pts[i], xc, yc, r)
    {
      PointOfIndex(xc, yc, r, i);
      EightNear(xc, yc, r, o[i / 8].0, o[i / 8].1, i % 8);
    }
  }

  /** The outline is symmetric about its centre. */
  lemma CircleSymmetric(xc: int, yc: int, r: int)
    ensures Symmetric(CirclePoints(xc, yc, r), xc, yc)
  {
    var pts := CirclePoints(xc, yc, r);
    forall i | 0 <= i < |pts|
      ensures MirroredAt(pts, i, xc, yc)
    {
      CircleMirroredAt(xc, yc, r, i);
    }
  }

  /** The three mirror images of outline point `i` sit in the same
      iteration's block of 8. */
  lemma CircleMirroredAt(xc: int, yc: int, r: int, i: int)
    requires 0 <= i < |CirclePoints(xc, yc, r)|
    ensures MirroredAt(CirclePoints(xc, yc, r), i, xc, yc)
  {
    var k, j := i / 8, i % 8;
    assert i == 8 * k + j && 0 <= j < 8;
    BlockMirrored(xc, yc, r, k, j);
  }

  /** Point `m` of iteration `k`. */
  lemma CircleBlockAt(xc: int, yc: int, r: int, k: int, m: int)
    requires 0 <= k < |Octant(r)| && 0 <= m < 8
    ensures 8 * k + m < |CirclePoints(xc, yc, r)|
    ensures CirclePoints(xc, yc, r)[8 * k + m] == Emit(xc, yc, Octant(r)[k].0, Octant(r)[k].1, m)
  {
    CircleBlocks(xc, yc, r);
  }

  /** Point `j` of iteration `k` has its three mirror images in the same
      iteration's block. */
  lemma BlockMirrored(xc: int, yc: int, r: int, k: int, j: int)
    requires 0 <= k < |Octant(r)| && 0 <= j < 8
    ensures 8 * k + j < |CirclePoints(xc, yc, r)|
    ensures MirroredAt(CirclePoints(xc, yc, r), 8 * k + j, xc, yc)
  {
    var pts := CirclePoints(xc, yc, r);
    var p := pts[8 * k + j];
    BlockMirrorX(xc, yc, r, k, j);
    BlockMirrorY(xc, yc, r, k, j);
    BlockSwap(xc, yc, r, k, j);
    assert (2 * xc - p.0, p.1) in pts;
    assert (p.0, 2 * yc - p.1) in pts;
    assert (xc + (p.1 - yc), yc + (p.0 - xc)) in pts;
  }

  lemma BlockMirrorX(xc: int, yc: int, r: int, k: int, j: int)
    requires 0 <= k < |Octant(r)| && 0 <= j < 8
    ensures 8 * k + j < |CirclePoints(xc, yc, r)|
    ensures var pts := CirclePoints(xc, yc, r); var p := pts[8 * k + j];
      (2 * xc - p.0, p.1) in pts
  {
    var pts, o := CirclePoints(xc, yc, r), Octant(r);
    MirrorAcrossX(xc, yc, o[k].0, o[k].1, j);
    CircleBlockAt(xc, yc, r, k, j);
    CircleBlockAt(xc, yc, r, k, AcrossX(j));
    assert pts[8 * k + AcrossX(j)] in pts;
  }

  lemma BlockMirrorY(xc: int, yc: int, r: int, k: int, j: int)
    requires 0 <= k < |Octant(r)| && 0 <= j < 8
    ensures 8 * k + j < |CirclePoints(xc, yc, r)|
    ensures var pts := CirclePoints(xc, yc, r); var p := pts[8 * k + j];
      (p.0, 2 * yc - p.1) in pts
  {
    var pts, o := CirclePoints(xc, yc, r), Octant(r);
    MirrorAcrossY(xc, yc, o[k].0, o[k].1, j);
    CircleBlockAt(xc, yc, r, k, j);
    CircleBlockAt(xc, yc, r, k, AcrossY(j));
    assert pts[8 * k + AcrossY(j)] in pts;
  }

  lemma BlockSwap(xc: int, yc: int, r: int, k: int, j: int)
    requires 0 <= k < |Octant(r)| && 0 <= j < 8
    ensures 8 * k + j < |CirclePoints(xc, yc, r)|
    ensures var pts := CirclePoints(xc, yc, r); var p := pts[8 * k + j];
      (xc + (p.1 - yc), yc + (p.0 - xc)) in pts
  {
    var pts, o := CirclePoints(xc, yc, r), Octant(r);
    MirrorSwapped(xc, yc, o[k].0, o[k].1, j);
    CircleBlockAt(xc, yc, r, k, j);
    CircleBlockAt(xc, yc, r, k, Swapped(j));
    assert pts[8 * k + Swapped(j)] in pts;
  }

  /** The x values of the outline points on row `py`; `draw_circle_midpoint`
      compares rows with `abs(p.y - py) < 1`, which on integers is equality. */
  function RowXs(pts: seq<Pixel>, py: int): (xs: seq<int>)
    ensures forall x :: x in xs <==> (x, py) in pts
  {
    if |pts| == 0 then []
    else
      var rest := RowXs(pts[1..], py);
      assert forall q :: q in pts <==> q == pts[0] || q in pts[1..];
      if -1 < pts[0].1 - py < 1 then [pts[0].0] + rest else rest
  }

  function SeqMin(xs: seq<int>): (m: int)
    requires |xs| > 0
    ensures m in xs && forall x :: x in xs ==> m <= x
  {
    if |xs| == 1 then xs[0]
    else
      var m := SeqMin(xs[1..]);
      assert forall x :: x in xs <==> x == xs[0] || x in xs[1..];
      if xs[0] <= m then xs[0] else m
  }

  function SeqMax(xs: seq<int>): (m: int)
    requires |xs| > 0
    ensures m in xs && forall x :: x in xs ==> x <= m
  {
    if |xs| == 1 then xs[0]
    else
      var m := SeqMax(xs[1..]);
      assert forall x :: x in xs <==> x == xs[0] || x in xs[1..];
      if xs[0] >= m then xs[0] else m
  }

  /** `q` lies between the leftmost and rightmost outline point of its row. */
  predicate InRowSpan(pts: seq<Pixel>, q: Pixel) {
    var xs := RowXs(pts, q.1);
    |xs| > 0 && SeqMin(xs) <= q.0 <= SeqMax(xs)
  }

  /** The fill pass over rows `py .. hi`, row by row. */
  function FillRows(pts: seq<Pixel>, py: int, hi: int): seq<Pixel>
    decreases hi - py
  {
    if py > hi then []
    else RowSpan(pts, py) + FillRows(pts, py + 1, hi)
  }

  /** The pixels of row `py` between its leftmost and rightmost outline
      point; nothing when the row has none. */
  function RowSpan(pts: seq<Pixel>, py: int): (s: seq<Pixel>)
    ensures forall q :: q in s <==> q.1 == py && InRowSpan(pts, q)
  {
    var xs := RowXs(pts, py);
    if |xs| == 0 then [] else Span(SeqMin(xs), SeqMax(xs), py)
  }

  /** The fill pass puts exactly the in-span pixels of its rows. */
  lemma {:induction false} FillRowsMembers(pts: seq<Pixel>, py: int, hi: int)
    ensures forall q :: q in FillRows(pts, py, hi) <==> py <= q.1 <= hi && InRowSpan(pts, q)
    decreases hi - py
  {
    if py <= hi {
      FillRowsMembers(pts, py + 1, hi);
    }
  }

  /** The fill pass over rows `lo .. hi`, run only when points were
      collected. */
  function FillOf(pts: seq<Pixel>, lo: int, hi: int): seq<Pixel> {
    if |pts| == 0 then [] else FillRows(pts, lo, hi)
  }

  lemma FillOfMembers(pts: seq<Pixel>, lo: int, hi: int)
    ensures forall q :: q in FillOf(pts, lo, hi) <==> lo <= q.1 <= hi && InRowSpan(pts, q)
  {
    if |pts| > 0 {
      FillRowsMembers(pts, lo, hi);
    } else {
      forall q: Pixel
        ensures !InRowSpan(pts, q)
      {
        assert RowXs(pts, q.1) == [];
      }
    }
  }

  /** The first and last row of the fill pass, `yc - r` and `yc + r`. */
  function FirstRow(yc: int, r: int): int {
    yc - r
  }

  function LastRow(yc: int, r: int): int {
    yc + r
  }

  /** The pixels the filled variant puts: rows `yc - r .. yc + r`, each from
      the leftmost to the rightmost outline point on that row. */
  function FilledCircle(xc: int, yc: int, r: int): seq<Pixel> {
    FillOf(CirclePoints(xc, yc, r), FirstRow(yc, r), LastRow(yc, r))
  }

  /** A pixel is filled exactly when its row is within `r` of the centre and
      it lies in the span of the outline points on that row. */
  lemma FilledCircleMembers(xc: int, yc: int, r: int)
    ensures forall q :: q in FilledCircle(xc, yc, r) <==>
      FirstRow(yc, r) <= q.1 <= LastRow(yc, r) && InRowSpan(CirclePoints(xc, yc, r), q)
  {
    FillOfMembers(CirclePoints(xc, yc, r), FirstRow(yc, r), LastRow(yc, r));
  }

  /** `draw_circle_midpoint`: the midpoint loop, then (when filling) the
      fill pass over rows `yc - r .. yc + r`. The outline is not drawn
      separately when filling. */
  method DrawCircleMidpoint(buf: Pixels, xc: int, yc: int, r: int, c: Color, fill: bool)
    returns (out: Pixels)
    ensures !fill ==> out == Paint(buf, CirclePoints(xc, yc, r), c)
    ensures fill ==> out == Paint(buf, FilledCircle(xc, yc, r), c)
  {
    var points;
    out, points := MidpointLoop(buf, xc, yc, r, c, fill);
    if fill && |points| > 0 {
      out := FillPass(buf, points, FirstRow(yc, r), LastRow(yc, r), c);
    }
  }

  /** The loop on `(x, y, d)`: each round puts its 8 points (outline), or
      only collects them into `points` (fill), so that `points` stays empty
      when not filling. */
  method MidpointLoop(buf: Pixels, xc: int, yc: int, r: int, c: Color, fill: bool)
    returns (out: Pixels, points: seq<Pixel>)
    ensures points == if fill then CirclePoints(xc, yc, r) else []
    ensures out == if fill then buf else Paint(buf, CirclePoints(xc, yc, r), c)
  {
    var x, y, d := 0, r, 1 - r;
    ghost var o := Octant(r);
    ghost var outline: seq<Pixel> := [];
    points := [];
    out := buf;
    while x <= y
      invariant MidpointState(r, x, y, d)
      invariant 0 <= x <= |o| && o[x..] == OctantFrom(r, x, y, d)
      invariant outline == EightWay(xc, yc, o[..x])
      invariant points == if fill then outline else []
      invariant out == if fill then buf else Paint(buf, outline, c)
      decreases y - x + 2
    {
      var pts := Iteration(xc, yc, x, y);
      OctantAdvance(r, o, x, y, d);
      EightWayAppend(xc, yc, o[..x], (x, y));
      if fill {
        points := points + pts;
      } else {
        PaintAppend(buf, outline, pts, c);
        out := Paint(out, pts, c);
      }
      outline := outline + pts;
      ghost var y', d' := NextY(y, d), NextD(x, y, d);
      if d < 0 {
        d := d + 2 * x + 3;
      } else {
        d := d + 2 * (x - y) + 5;
        y := y - 1;
      }
      assert y == y' && d == d';
      x := x + 1;
    }
    assert o[x..] == [];
    assert o[..x] == o;
  }

  /** One round of the loop consumes the next octant offset. */
  lemma OctantAdvance(r: int, o: seq<(int, int)>, x: int, y: int, d: int)
    requires MidpointState(r, x, y, d) && x <= y
    requires 0 <= x <= |o| && o[x..] == OctantFrom(r, x, y, d)
    ensures x < |o| && o[x] == (x, y) && o[..x + 1] == o[..x] + [(x, y)]
    ensures MidpointState(r, x + 1, NextY(y, d), NextD(x, y, d))
    ensures o[x + 1..] == OctantFrom(r, x + 1, NextY(y, d), NextD(x, y, d))
  {
    MidpointStep(r, x, y, d);
    assert o[x + 1..] == o[x..][1..];
  }

  /** The fill pass: for each row `py` in `lo .. hi`, put the span from the
      leftmost to the rightmost collected point on that row. */
  method FillPass(buf: Pixels, points: seq<Pixel>, lo: int, hi: int, c: Color)
    returns (out: Pixels)
    ensures out == Paint(buf, FillRows(points, lo, hi), c)
  {
    out := buf;
    var py := lo;
    while py <= hi
      invariant Paint(out, FillRows(points, py, hi), c) == Paint(buf, FillRows(points, lo, hi), c)
      decreases hi - py
    {
      var xs := RowXs(points, py);
      var row := if |xs| == 0 then [] else Span(SeqMin(xs), SeqMax(xs), py);
      FillStep(out, points, py, hi, c);
      out := Paint(out, row, c);
      py := py + 1;
    }
  }

  /** Putting one row and then the remaining rows is putting all rows from
      this one. */
  lemma FillStep(buf: Pixels, points: seq<Pixel>, py: int, hi: int, c: Color)
    requires py <= hi
    ensures Paint(Paint(buf, RowSpan(points, py), c), FillRows(points, py + 1, hi), c)
         == Paint(buf, FillRows(points, py, hi), c)
  {
    PaintAppend(buf, RowSpan(points, py), FillRows(points, py + 1, hi), c);
  }

  /** The filled disc covers every outline point. */
  lemma FillCoversOutline(xc: int, yc: int, r: int)
    ensures forall p :: p in CirclePoints(xc, yc, r) ==> p in FilledCircle(xc, yc, r)
  {
    var pts := CirclePoints(xc, yc, r);
    CircleNear(xc, yc, r);
    FilledCircleMembers(xc, yc, r);
    forall i | 0 <= i < |pts|
      ensures pts[i] in FilledCircle(xc, yc, r)
    {
      var p := pts[i];
      assert NearCircle(p, xc, yc, r);
      var xs := RowXs(pts, p.1);
      assert p.0 in xs;
    }
  }
}
