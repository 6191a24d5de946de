/** `draw_line_dda`: the digital differential analyser. The larger of |dx|
    and |dy| gives the step count; each sample is truncated toward zero. */
module LineDda {
  import opened Numeric
  import opened PixelBuffer

  function Steps(x1: real, y1: real, x2: real, y2: real): real {
    Max(Abs(x2 - x1), Abs(y2 - y1))
  }

  /** The pixel coordinates `draw_line_dda` hands to `put_pixel`, in order.
      Sample `i` is the running sum after `i` increments of `(dx, dy) / steps`. */
  function LineSamples(x1: real, y1: real, x2: real, y2: real): (r: seq<Pixel>)
    ensures |r| >= 1 && r[0] == (Trunc(x1), Trunc(y1))
    ensures Steps(x1, y1, x2, y2) == 0.0 ==> |r| == 1
    ensures Steps(x1, y1, x2, y2) != 0.0 ==> |r| == Trunc(Steps(x1, y1, x2, y2)) + 1
  {
    var steps := Steps(x1, y1, x2, y2);
    if steps == 0.0 then [(Trunc(x1), Trunc(y1))]
    else
      assert Trunc(steps) >= 0;
      Samples(x1, y1, (x2 - x1) / steps, (y2 - y1) / steps, Trunc(steps) + 1)
  }

  /** The first `n` samples of a line from `(x1, y1)` with per-step
      increments `(xInc, yInc)`. */
  function Samples(x1: real, y1: real, xInc: real, yInc: real, n: nat): seq<Pixel> {
    seq(n, (i: nat) => SampleAt(x1, y1, xInc, yInc, i))
  }

  /** The pixel of the `i`-th sample of a line from `(x1, y1)` with
      per-step increments `(xInc, yInc)`. */
  function SampleAt(x1: real, y1: real, xInc: real, yInc: real, i: nat): Pixel {
    (Trunc(Along(x1, xInc, i)), Trunc(Along(y1, yInc, i)))
  }

  /** `draw_line_dda`'s loop, with running sums `x += x_inc`, paints exactly the
      samples of the line, in order. */
  method DrawLineDda(buf: Pixels, x1: real, y1: real, x2: real, y2: real, c: Color)
    returns (out: Pixels)
    ensures out == Paint(buf, LineSamples(x1, y1, x2, y2), c)
  {
    var dx := x2 - x1;
    var dy := y2 - y1;
    var steps := Max(Abs(dx), Abs(dy));
    if steps == 0.0 {
      out := Plot(buf, (Trunc(x1), Trunc(y1)), c);
      assert [(Trunc(x1), Trunc(y1))][..0] == [];
      return;
    }
    var xInc := dx / steps;
    var yInc := dy / steps;
    var x, y := x1, y1;
    var n := Trunc(steps) + 1;
    ghost var samples := Samples(x1, y1, xInc, yInc, n);
    assert LineSamples(x1, y1, x2, y2) == samples;
    out := buf;
    var i := 0;
    while i < n
      invariant 0 <= i <= n == |samples|
      invariant x == Along(x1, xInc, i) && y == Along(y1, yInc, i)
      invariant out == Paint(buf, samples[..i], c)
    {
      var p := (Trunc(x), Trunc(y));
      assert samples[i] == SampleAt(x1, y1, xInc, yInc, i) == p;
      PaintPrefix(buf, samples, i, c);
      out := Plot(out, p, c);
      x, y, i := x + xInc, y + yInc, i + 1;
    }
    assert samples[..n] == samples;
  }

  /** With integer endpoints the line has `max(|dx|, |dy|) + 1` samples and
      the last one is the end point itself. */
  lemma LineReachesEnd(x1: int, y1: int, x2: int, y2: int)
    ensures var r := LineSamples(x1 as real, y1 as real, x2 as real, y2 as real);
      |r| == IntMax(IntAbs(x2 - x1), IntAbs(y2 - y1)) + 1 && r[|r| - 1] == (x2, y2)
  {
    var k := IntMax(IntAbs(x2 - x1), IntAbs(y2 - y1));
    var steps := Steps(x1 as real, y1 as real, x2 as real, y2 as real);
    var r := LineSamples(x1 as real, y1 as real, x2 as real, y2 as real);
    StepsOfIntegers(x1, y1, x2, y2);
    TruncOfInt(k);
    if k == 0 {
      TruncOfInt(x1);
      TruncOfInt(y1);
    } else {
      var xInc := (x2 - x1) as real / steps;
      var yInc := (y2 - y1) as real / steps;
      assert r[k] == SampleAt(x1 as real, y1 as real, xInc, yInc, k);
      LastCoordinate(x1, x2, k);
      LastCoordinate(y1, y2, k);
    }
  }

  function IntAbs(n: int): nat {
    if n < 0 then -n else n
  }

  function IntMax(a: int, b: int): int {
    if a >= b then a else b
  }

  lemma StepsOfIntegers(x1: int, y1: int, x2: int, y2: int)
    ensures Steps(x1 as real, y1 as real, x2 as real, y2 as real)
      == IntMax(IntAbs(x2 - x1), IntAbs(y2 - y1)) as real
  {
  }

  /** `k` increments of `(b - a) / k` lead from `a` exactly to `b`. */
  lemma LastCoordinate(a: int, b: int, k: nat)
    requires k > 0
    ensures Trunc(Along(a as real, (b - a) as real / k as real, k)) == b
  {
    AlongClosedForm(a as real, (b - a) as real / k as real, k);
    MulDivCancel((b - a) as real, k as real);
    TruncOfInt(b);
  }

  /** Consecutive samples are 8-neighbours (or the same pixel): the line has no
      gaps, because each increment has magnitude at most one. */
  lemma LineConnected(x1: real, y1: real, x2: real, y2: real)
    ensures var r := LineSamples(x1, y1, x2, y2);
      forall i :: 0 <= i < |r| - 1 ==>
        -1 <= r[i + 1].0 - r[i].0 <= 1 && -1 <= r[i + 1].1 - r[i].1 <= 1
  {
    var r := LineSamples(x1, y1, x2, y2);
    var steps := Steps(x1, y1, x2, y2);
    if steps != 0.0 {
      var xInc := (x2 - x1) / steps;
      var yInc := (y2 - y1) / steps;
      IncrementBounded(x2 - x1, steps);
      IncrementBounded(y2 - y1, steps);
      forall i | 0 <= i < |r| - 1
        ensures -1 <= r[i + 1].0 - r[i].0 <= 1 && -1 <= r[i + 1].1 - r[i].1 <= 1
      {
        assert r[i] == SampleAt(x1, y1, xInc, yInc, i);
        assert r[i + 1] == SampleAt(x1, y1, xInc, yInc, i + 1);
        NeighbourTrunc(Along(x1, xInc, i), xInc);
        NeighbourTrunc(Along(y1, yInc, i), yInc);
      }
    }
  }

  lemma IncrementBounded(d: real, steps: real)
    requires steps > 0.0 && Abs(d) <= steps
    ensures -1.0 <= d / steps <= 1.0
  {
    DivMonotone(d, steps, steps);
    DivMonotone(-steps, d, steps);
  }

  lemma NeighbourTrunc(a: real, inc: real)
    requires -1.0 <= inc <= 1.0
    ensures -1 <= Trunc(a + inc) - Trunc(a) <= 1
  {
    if inc >= 0.0 {
      TruncNear(a, a + inc);
    } else {
      TruncNear(a + inc, a);
    }
  }

  /** Every sample lies in the box spanned by the truncated end points. */
  lemma LineWithinBox(x1: real, y1: real, x2: real, y2: real)
    ensures var r := LineSamples(x1, y1, x2, y2);
      forall i :: 0 <= i < |r| ==>
        (Trunc(x1) <= r[i].0 <= Trunc(x2) || Trunc(x2) <= r[i].0 <= Trunc(x1)) &&
        (Trunc(y1) <= r[i].1 <= Trunc(y2) || Trunc(y2) <= r[i].1 <= Trunc(y1))
  {
    var r := LineSamples(x1, y1, x2, y2);
    var steps := Steps(x1, y1, x2, y2);
    if steps != 0.0 {
      var xInc := (x2 - x1) / steps;
      var yInc := (y2 - y1) / steps;
      forall i | 0 <= i < |r|
        ensures Trunc(x1) <= r[i].0 <= Trunc(x2) || Trunc(x2) <= r[i].0 <= Trunc(x1)
        ensures Trunc(y1) <= r[i].1 <= Trunc(y2) || Trunc(y2) <= r[i].1 <= Trunc(y1)
      {
        assert r[i] == SampleAt(x1, y1, xInc, yInc, i);
        CoordinateWithin(x1, x2, steps, i);
        CoordinateWithin(y1, y2, steps, i);
      }
    }
  }

  /** The `i`-th running sum, for `i` up to the step count, truncates between
      the truncated end points. */
  lemma CoordinateWithin(a: real, b: real, steps: real, i: nat)
    requires 0.0 < steps && i <= Trunc(steps)
    ensures var v := Trunc(Along(a, (b - a) / steps, i));
      Trunc(a) <= v <= Trunc(b) || Trunc(b) <= v <= Trunc(a)
  {
    var p := Along(a, (b - a) / steps, i);
    AlongBetween(a, b, steps, i);
    if a <= b {
      TruncBetween(a, p, b);
    } else {
      TruncBetween(b, p, a);
    }
  }

  lemma AlongBetween(a: real, b: real, steps: real, i: nat)
    requires 0.0 < steps && i <= Trunc(steps)
    ensures Min(a, b) <= Along(a, (b - a) / steps, i) <= Max(a, b)
  {
    FractionOfSteps(i, steps);
    AlongAtFraction(a, b, steps, i);
    FractionBetween(a, b, i as real / steps);
  }

  lemma FractionOfSteps(i: nat, steps: real)
    requires 0.0 < steps && i <= Trunc(steps)
    ensures 0.0 <= i as real / steps <= 1.0
  {
    DivMonotone(i as real, steps, steps);
    DivMonotone(0.0, i as real, steps);
  }

  lemma AlongAtFraction(a: real, b: real, steps: real, i: nat)
    requires steps != 0.0
    ensures Along(a, (b - a) / steps, i) == a + (i as real / steps) * (b - a)
  {
    AlongClosedForm(a, (b - a) / steps, i);
  }

  /** With a fractional step count the loop stops short: from (0.5, 0) to
      (3, 0) the last sample is (2, 0), not the truncated end point (3, 0). */
  lemma LineMayStopShort()
    ensures var r := LineSamples(0.5, 0.0, 3.0, 0.0);
      |r| == 3 && r[2] == (2, 0) && (Trunc(3.0), Trunc(0.0)) == (3, 0)
  {
    var r := LineSamples(0.5, 0.0, 3.0, 0.0);
    assert Steps(0.5, 0.0, 3.0, 0.0) == 2.5;
    assert Trunc(2.5) == 2;
    assert r[2] == (Trunc(0.5 + 2.0 * (2.5 / 2.5)), Trunc(0.0 + 2.0 * (0.0 / 2.5)));
    assert Trunc(2.5) == 2;
  }
}
