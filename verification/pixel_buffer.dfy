/** The rasterizer's pixel dictionary `self.pixels`: integer coordinates to
    colour names, written only through `put_pixel`, last write wins. */
module PixelBuffer {
  import opened Numeric

  /** Colours are opaque names such as "black" or "#B0BEC5". */
  type Color = string

  type Pixel = (int, int)

  type Pixels = map<Pixel, Color>

  /** Canvas size fixed in the constructor. */
  const Width: int := 800
  const Height: int := 600

  predicate InCanvas(p: Pixel) {
    0 <= p.0 < Width && 0 <= p.1 < Height
  }

  /** Every key of the buffer is a canvas pixel. */
  predicate OnCanvas(buf: Pixels) {
    forall p :: p in buf ==> InCanvas(p)
  }

  /** `put_pixel`: both coordinates are truncated first, and the colour is
      stored only when the truncated pixel lies on the canvas. */
  function PutPixel(buf: Pixels, x: real, y: real, c: Color): (r: Pixels)
    ensures InCanvas((Trunc(x), Trunc(y))) ==> (Trunc(x), Trunc(y)) in r && r[(Trunc(x), Trunc(y))] == c
    ensures !InCanvas((Trunc(x), Trunc(y))) ==> r == buf
    ensures forall q :: q != (Trunc(x), Trunc(y)) ==> (q in r <==> q in buf)
    ensures forall q :: q in r && q != (Trunc(x), Trunc(y)) ==> r[q] == buf[q]
    ensures OnCanvas(buf) ==> OnCanvas(r)
  {
    var p := (Trunc(x), Trunc(y));
    if InCanvas(p) then buf[p := c] else buf
  }

  /** `put_pixel` called with integer coordinates, as every drawing routine
      ends up doing. */
  function Plot(buf: Pixels, p: Pixel, c: Color): (r: Pixels)
    ensures InCanvas(p) ==> r == buf[p := c]
    ensures !InCanvas(p) ==> r == buf
  {
    TruncOfInt(p.0);
    TruncOfInt(p.1);
    PutPixel(buf, p.0 as real, p.1 as real, c)
  }

  /** The effect of a drawing routine that issues `put_pixel` for each
      coordinate of `ps`, in order, all with colour `c`. */
  function Paint(buf: Pixels, ps: seq<Pixel>, c: Color): Pixels {
    if |ps| == 0 then buf
    else Plot(Paint(buf, ps[..|ps| - 1], c), ps[|ps| - 1], c)
  }

  /** After the run, the buffer holds `c` on exactly the run's canvas pixels
      and is unchanged elsewhere. */
  lemma {:induction false} PaintEffect(buf: Pixels, ps: seq<Pixel>, c: Color)
    ensures var r := Paint(buf, ps, c);
      (forall q :: q in r <==> q in buf || (q in ps && InCanvas(q))) &&
      (forall q :: q in r ==> r[q] == if q in ps && InCanvas(q) then c else buf[q])
    decreases |ps|
  {
    if |ps| > 0 {
      var init := ps[..|ps| - 1];
      PaintEffect(buf, init, c);
      assert ps == init + [ps[|ps| - 1]];
    }
  }

  /** One more `put_pixel` at the end of a run. */
  lemma PaintPrefix(buf: Pixels, ps: seq<Pixel>, i: nat, c: Color)
    requires i < |ps|
    ensures Paint(buf, ps[..i + 1], c) == Plot(Paint(buf, ps[..i], c), ps[i], c)
  {
    assert ps[..i + 1][..i] == ps[..i];
  }

  /** Painting two runs of pixels one after the other is painting their
      concatenation: the order of the `put_pixel` calls of one colour does not
      matter. */
  lemma {:induction false} PaintAppend(buf: Pixels, a: seq<Pixel>, b: seq<Pixel>, c: Color)
    ensures Paint(Paint(buf, a, c), b, c) == Paint(buf, a + b, c)
    decreases |b|
  {
    if |b| == 0 {
      assert a + b == a;
    } else {
      var init := b[..|b| - 1];
      PaintAppend(buf, a, init, c);
      assert (a + b)[..|a + b| - 1] == a + init;
    }
  }

  /** Drawing never puts a pixel outside the canvas. */
  lemma PaintStaysOnCanvas(buf: Pixels, ps: seq<Pixel>, c: Color)
    requires OnCanvas(buf)
    ensures OnCanvas(Paint(buf, ps, c))
  {
    PaintEffect(buf, ps, c);
  }

  /** The pixels a `for x in range(a, b + 1): put_pixel(x, y)` loop visits:
      the run from `a` to `b` on row `y`, empty when `a > b`. */
  function Span(a: int, b: int, y: int): (s: seq<Pixel>)
    ensures forall q :: q in s <==> q.1 == y && a <= q.0 <= b
  {
    var s := seq(if a <= b then b - a + 1 else 0, i => (a + i, y));
    assert forall q: Pixel :: q.1 == y && a <= q.0 <= b ==> s[q.0 - a] == q;
    s
  }

  /** The run is laid out left to right, one pixel per column. */
  lemma SpanIndex(a: int, b: int, y: int)
    ensures |Span(a, b, y)| == if a <= b then b - a + 1 else 0
    ensures forall i :: 0 <= i < |Span(a, b, y)| ==> Span(a, b, y)[i] == (a + i, y)
  {
  }
}
