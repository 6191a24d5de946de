/** The animation parameters of the 2D scene: the cloud's horizontal offset
    and the sun's ray angle advance once per frame and wrap round; the house
    and flower scale is changed only by the zoom and reset keys. */
module SceneAnimation {
  import opened Numeric
  import opened PixelBuffer

  datatype AnimState = AnimState(cloudOffset: int, sunRotation: int, scaleFactor: real, running: bool)

  /** The values the constructor sets. */
  const Initial: AnimState := AnimState(0, 0, 1.0, true)

  /** The cloud restarts off-screen to the left once it passes the right edge. */
  const CloudRestart: int := -100

  /** Zooming never goes past twice the normal size. */
  const MaxScale: real := 2.0

  const ZoomStep: real := 0.1

  /** The ranges the parameters stay in: the cloud between its restart
      position and the canvas width, the sun angle an even number of degrees
      below 360, the scale between normal and the zoom limit. */
  predicate Valid(s: AnimState) {
    && CloudRestart <= s.cloudOffset <= Width
    && 0 <= s.sunRotation < 360 && s.sunRotation % 2 == 0
    && 1.0 <= s.scaleFactor <= MaxScale
  }

  /** The parameter update at the end of one `animate` frame; a stopped
      animation returns before touching anything. */
  function Tick(s: AnimState): (t: AnimState)
    ensures !s.running ==> t == s
    ensures t.scaleFactor == s.scaleFactor && t.running == s.running
    ensures Valid(s) ==> Valid(t)
  {
    if !s.running then s
    else
      var cloud := if s.cloudOffset + 1 > Width then CloudRestart else s.cloudOffset + 1;
      var sun := if s.sunRotation + 2 >= 360 then 0 else s.sunRotation + 2;
      s.(cloudOffset := cloud, sunRotation := sun)
  }

  /** `zoom_in`: ten per cent larger, capped at the limit. */
  function ZoomIn(s: AnimState): (t: AnimState)
    ensures t.scaleFactor == Min(s.scaleFactor + ZoomStep, MaxScale)
    ensures t == s.(scaleFactor := t.scaleFactor)
    ensures Valid(s) ==> Valid(t) && s.scaleFactor <= t.scaleFactor
  {
    s.(scaleFactor := Min(s.scaleFactor + ZoomStep, MaxScale))
  }

  /** `reset_scale`: back to normal size. */
  function ResetScale(s: AnimState): (t: AnimState)
    ensures t.scaleFactor == 1.0 && t == s.(scaleFactor := 1.0)
    ensures Valid(s) ==> Valid(t)
  {
    s.(scaleFactor := 1.0)
  }

  lemma InitialValid()
    ensures Valid(Initial)
  {
  }

  /** `n` frames in a row. */
  function Ticks(s: AnimState, n: nat): AnimState {
    if n == 0 then s else Tick(Ticks(s, n - 1))
  }

  /** While running, the cloud cycles through the 901 offsets from -100 to
      800 and the sun angle advances by 2 degrees modulo 360. */
  lemma {:induction false} TicksClosedForm(s: AnimState, n: nat)
    requires Valid(s) && s.running
    ensures Valid(Ticks(s, n)) && Ticks(s, n).running
    ensures Ticks(s, n).cloudOffset - CloudRestart == (s.cloudOffset - CloudRestart + n) % 901
    ensures Ticks(s, n).sunRotation == (s.sunRotation + 2 * n) % 360
  {
    if n > 0 {
      TicksClosedForm(s, n - 1);
      var p := Ticks(s, n - 1);
      CloudWrap(s.cloudOffset - CloudRestart + n - 1);
      SunWrap(s.sunRotation + 2 * (n - 1));
      assert p.sunRotation % 2 == 0;
    }
  }

  /** One more cloud step in the closed form: reducing before or after the
      increment agrees. */
  lemma CloudWrap(a: int)
    ensures (a % 901 + 1) % 901 == (a + 1) % 901
  {
  }

  lemma SunWrap(a: int)
    ensures (a % 360 + 2) % 360 == (a + 2) % 360
  {
  }

  /** Ten zoom steps reach the limit from normal size, and further steps
      stay there. */
  lemma {:induction false} ZoomsFromNormal(s: AnimState, n: nat)
    requires s.scaleFactor == 1.0
    ensures Zooms(s, n).scaleFactor == Min(1.0 + n as real * ZoomStep, MaxScale)
  {
    if n > 0 {
      ZoomsFromNormal(s, n - 1);
    }
  }

  /** `n` presses of the zoom key. */
  function Zooms(s: AnimState, n: nat): AnimState {
    if n == 0 then s else ZoomIn(Zooms(s, n - 1))
  }

  /** The frame update never touches the scale, and the keys never touch the
      cloud or the sun: the two kinds of update commute. */
  lemma TickZoomCommute(s: AnimState)
    ensures Tick(ZoomIn(s)) == ZoomIn(Tick(s))
    ensures Tick(ResetScale(s)) == ResetScale(Tick(s))
  {
  }
}
