/** Exact-arithmetic counterparts of the few Python numeric builtins the
    rasterizer and the viewer rely on: `int()` on a float, `abs`, `min`, `max`. */
module Numeric {

  /** Python's `int(x)` on a float: truncation toward zero (not `Floor`,
      which differs for negative non-integers). */
  function Trunc(x: real): (n: int)
    ensures 0.0 <= x ==> n as real <= x < n as real + 1.0
    ensures x < 0.0 ==> n as real - 1.0 < x <= n as real
  {
    if x >= 0.0 then x.Floor else -((-x).Floor)
  }

  function Abs(x: real): real {
    if x < 0.0 then -x else x
  }

  function Min(a: real, b: real): real {
    if a <= b then a else b
  }

  function Max(a: real, b: real): real {
    if a >= b then a else b
  }

  /** `int()` leaves integral values alone. */
  lemma TruncOfInt(n: int)
    ensures Trunc(n as real) == n
  {
  }

  /** Truncation is monotone. */
  lemma TruncMonotone(a: real, b: real)
    requires a <= b
    ensures Trunc(a) <= Trunc(b)
  {
  }

  /** Reals at most one apart truncate to integers at most one apart; this is
      what keeps a DDA line free of gaps even across zero. */
  lemma TruncNear(a: real, b: real)
    requires a <= b <= a + 1.0
    ensures Trunc(a) <= Trunc(b) <= Trunc(a) + 1
  {
  }

  /** Truncation maps a value between two reals to an integer between their
      truncations. */
  lemma TruncBetween(lo: real, v: real, hi: real)
    requires lo <= v <= hi
    ensures Trunc(lo) <= Trunc(v) <= Trunc(hi)
  {
    TruncMonotone(lo, v);
    TruncMonotone(v, hi);
  }

  /** Multiplying back by a non-zero divisor cancels the division. */
  lemma MulDivCancel(d: real, k: real)
    requires k != 0.0
    ensures k * (d / k) == d
  {
  }

  /** The running sum `start + inc + inc + ...` after `i` increments, as the
      DDA and easing loops accumulate it. */
  function Along(start: real, inc: real, i: nat): real {
    if i == 0 then start else Along(start, inc, i - 1) + inc
  }

  /** Under exact arithmetic the running sum is the closed form. */
  lemma {:induction false} AlongClosedForm(start: real, inc: real, i: nat)
    ensures Along(start, inc, i) == start + i as real * inc
  {
    if i > 0 {
      AlongClosedForm(start, inc, i - 1);
      assert (i - 1) as real * inc + inc == i as real * inc;
    }
  }

  /** Dividing by a positive number preserves order. */
  lemma DivMonotone(a: real, b: real, k: real)
    requires k > 0.0 && a <= b
    ensures a / k <= b / k
  {
    var q, p := a / k, b / k;
    assert q * k == a && p * k == b;
  }

  lemma MulNonNegative(a: real, b: real)
    requires a >= 0.0 && b >= 0.0
    ensures a * b >= 0.0
  {
  }

  /** Scaling a non-negative length by a fraction in [0, 1] shrinks it. */
  lemma FractionOfLength(t: real, d: real)
    requires 0.0 <= t <= 1.0 && d >= 0.0
    ensures 0.0 <= t * d <= d
  {
    MulNonNegative(t, d);
    MulNonNegative(1.0 - t, d);
    assert (1.0 - t) * d == d - t * d;
  }

  /** A point a fraction `t` of the way from `a` to `b` lies between them. */
  lemma FractionBetween(a: real, b: real, t: real)
    requires 0.0 <= t <= 1.0
    ensures Min(a, b) <= a + t * (b - a) <= Max(a, b)
  {
    if a <= b {
      var d := b - a;
      FractionOfLength(t, d);
      var p := t * d;
      assert 0.0 <= p <= d;
      ShiftWithin(a, p, d);
    } else {
      var d := a - b;
      FractionOfLength(t, d);
      MulNegate(t, d);
      var p := t * d;
      assert 0.0 <= p <= d;
      ShiftWithin(b, d - p, d);
    }
  }

  lemma ShiftWithin(a: real, p: real, d: real)
    requires 0.0 <= p <= d
    ensures Min(a, a + d) <= a + p <= Max(a, a + d)
  {
  }

  lemma MulNegate(t: real, d: real)
    ensures t * -d == -(t * d)
  {
  }

  /** Multiplying by a non-zero factor and then by its reciprocal is the
      identity. */
  lemma MulRecip(v: real, k: real)
    requires k != 0.0
    ensures v * k * (1.0 / k) == v
  {
    assert k * (1.0 / k) == 1.0;
    assert v * k * (1.0 / k) == v * (k * (1.0 / k));
  }
}

/** Option and Result, for error paths (a Python exception becomes `Err`). */
module Results {

  datatype Option<+T> = None | Some(value: T)

  datatype Result<+T, +E> = Ok(value: T) | Err(error: E)
}
