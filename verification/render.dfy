/** The pure part of the viewer's `draw`: the camera transform, the
    perspective projection with its near-plane cull, the flat shading of each
    face and the back-to-front ordering of what is drawn. */
module Render {
  import opened Numeric
  import opened Results
  import opened VectorMath
  import opened PixelBuffer
  import opened Mesh
  import opened Objects
  import opened HexColour
  import opened Sorting

  /** Window size; the projection is centred in the window. */
  const ViewWidth: real := 1000.0
  const ViewHeight: real := 700.0
  const CentreX: real := ViewWidth / 2.0
  const CentreY: real := ViewHeight / 2.0

  /** The eye sits this far behind the origin, and this is also the
      projection's focal length. */
  const Fov: real := 900.0

  /** A vertex nearer to the eye than this culls its whole face. */
  const NearLimit: real := 10.0

  /** The message of the `IndexError` a bad vertex index raises. */
  const IndexError: string := "list index out of range"

  /** The camera: the cosines and sines of its two angles (`draw` takes
      them from `math.cos` and `math.sin`) and the zoom factor. */
  datatype Camera = Camera(cosY: real, sinY: real, cosX: real, sinX: real, zoom: real)

  /** The camera transform: a turn about the vertical axis, then one about
      the horizontal axis, then the zoom. */
  function ToCamera(cam: Camera, v: Vector3): Vector3 {
    var x := v.x * cam.cosY - v.z * cam.sinY;
    var z := v.x * cam.sinY + v.z * cam.cosY;
    var y := v.y * cam.cosX - z * cam.sinX;
    var z2 := v.y * cam.sinX + z * cam.cosX;
    Vector3(x * cam.zoom, y * cam.zoom, z2 * cam.zoom)
  }

  /** The camera at its start-up pose: both angles zero and no zoom. */
  const Level: Camera := Camera(1.0, 0.0, 1.0, 0.0, 1.0)

  /** The start-up camera leaves every vertex where it is. */
  lemma LevelCameraIdentity(v: Vector3)
    ensures ToCamera(Level, v) == v
  {
  }

  /** The zoom scales the turned vertex uniformly. */
  lemma CameraZoomScales(cam: Camera, v: Vector3)
    ensures ToCamera(cam, v) == Mul(ToCamera(cam.(zoom := 1.0), v), cam.zoom)
  {
  }

  /** The transform is linear: it maps sums to sums. */
  lemma CameraLinear(cam: Camera, v: Vector3, w: Vector3)
    ensures ToCamera(cam, Add(v, w)) == Add(ToCamera(cam, v), ToCamera(cam, w))
  {
  }

  /** With genuine cosines and sines (each pair on the unit circle) and no
      zoom, the camera transform is a rotation: it keeps lengths. */
  lemma CameraRotationKeepsLength(cam: Camera, v: Vector3)
    requires cam.cosY * cam.cosY + cam.sinY * cam.sinY == 1.0
    requires cam.cosX * cam.cosX + cam.sinX * cam.sinX == 1.0
    requires cam.zoom == 1.0
    ensures Dot(ToCamera(cam, v), ToCamera(cam, v)) == Dot(v, v)
  {
    var x := v.x * cam.cosY - v.z * cam.sinY;
    var z := v.x * cam.sinY + v.z * cam.cosY;
    PlaneRotation(v.x, v.z, cam.cosY, cam.sinY);
    PlaneRotation(v.y, z, cam.cosX, cam.sinX);
    var w := ToCamera(cam, v);
    assert w.x == x;
    assert w.y * w.y + w.z * w.z == v.y * v.y + z * z;
  }

  /** A turn in one coordinate plane keeps the squared length. */
  lemma PlaneRotation(a: real, b: real, c: real, s: real)
    requires c * c + s * s == 1.0
    ensures (a * c - b * s) * (a * c - b * s) + (a * s + b * c) * (a * s + b * c) == a * a + b * b
  {
    calc {
      (a * c - b * s) * (a * c - b * s) + (a * s + b * c) * (a * s + b * c);
      a * a * (c * c + s * s) + b * b * (c * c + s * s);
      { assert a * a * (c * c + s * s) == a * a * 1.0; assert b * b * (c * c + s * s) == b * b * 1.0; }
      a * a + b * b;
    }
  }

  /** `dist`: the depth of a camera-space vertex seen from the eye. */
  function Dist(v: Vector3): real {
    Fov + v.z
  }

  predicate Visible(v: Vector3) {
    !(Dist(v) < NearLimit)
  }

  /** A camera-space offset seen at depth `dist`, scaled by `FOV / dist`. */
  function Perspective(a: real, dist: real): real
    requires dist > 0.0
  {
    a * (Fov / dist)
  }

  /** The perspective projection of a visible vertex onto the window. */
  function ProjectPoint(v: Vector3): (real, real)
    requires Visible(v)
  {
    (CentreX + Perspective(v.x, Dist(v)), CentreY + Perspective(v.y, Dist(v)))
  }

  /** The point `t` times as far from the eye as `v`, in the same direction. */
  function Ray(v: Vector3, t: real): Vector3 {
    Vector3(t * v.x, t * v.y, t * Dist(v) - Fov)
  }

  /** Points on one ray from the eye land on the same pixel: the projection
      depends only on the direction from the eye. */
  lemma ProjectAlongRay(v: Vector3, t: real)
    requires Visible(v) && t > 0.0 && Visible(Ray(v, t))
    ensures ProjectPoint(Ray(v, t)) == ProjectPoint(v)
  {
    var d := Dist(v);
    var w := Ray(v, t);
    assert Dist(w) == t * d;
    assert w.x == t * v.x && w.y == t * v.y;
    RatioCancels(v.x, t, d);
    RatioCancels(v.y, t, d);
    assert Perspective(w.x, Dist(w)) == Perspective(v.x, d);
    assert Perspective(w.y, Dist(w)) == Perspective(v.y, d);
  }

  lemma RatioCancels(a: real, t: real, d: real)
    requires t > 0.0 && d > 0.0
    ensures Perspective(t * a, t * d) == Perspective(a, d)
  {
    assert (t * a) * (Fov / (t * d)) == (t * a * Fov) / (t * d);
    assert (t * a * Fov) / (t * d) == (a * Fov) / d;
  }

  /** The vertex straight ahead of the eye lands in the centre of the window. */
  lemma ProjectCentre(v: Vector3)
    requires Visible(v) && v.x == 0.0 && v.y == 0.0
    ensures ProjectPoint(v) == (CentreX, CentreY)
  {
  }

  /** The projected points of a face and the sum of their depths. */
  datatype Projection = Projection(points: seq<(real, real)>, depthSum: real)

  /** The projection loop over a face's vertices; `None` when it stops at a
      vertex nearer than the limit. */
  function Project(vs: seq<Vector3>): (r: Option<Projection>)
    ensures r.Some? <==> forall j :: 0 <= j < |vs| ==> Visible(vs[j])
    ensures r.Some? ==> |r.value.points| == |vs|
    ensures r.Some? ==> forall j :: 0 <= j < |vs| ==> r.value.points[j] == ProjectPoint(vs[j])
    ensures r.Some? ==> r.value.depthSum >= NearLimit * |vs| as real
  {
    if |vs| == 0 then Some(Projection([], 0.0))
    else
      var last := vs[|vs| - 1];
      match Project(vs[..|vs| - 1])
      case None => None
      case Some(p) =>
        if !Visible(last) then None
        else Some(Projection(p.points + [ProjectPoint(last)], p.depthSum + Dist(last)))
  }

  /** Python's `seq[i]`: negative indices count from the end. */
  predicate InBounds(i: int, n: int) {
    -n <= i < n
  }

  function Wrap(i: int, n: int): (k: int)
    requires InBounds(i, n)
    ensures 0 <= k < n
  {
    if i < 0 then i + n else i
  }

  predicate IndicesValid(idx: seq<int>, n: int) {
    forall j :: 0 <= j < |idx| ==> InBounds(idx[j], n)
  }

  /** `[cam_verts[idx] for idx in sub_indices]`; `None` is the `IndexError`. */
  function Gather(cam: seq<Vector3>, idx: seq<int>): (r: Option<seq<Vector3>>)
    ensures r.Some? <==> IndicesValid(idx, |cam|)
    ensures r.Some? ==> |r.value| == |idx|
    ensures r.Some? ==> forall j :: 0 <= j < |idx| ==> r.value[j] == cam[Wrap(idx[j], |cam|)]
  {
    if |idx| == 0 then Some([])
    else
      var i := idx[|idx| - 1];
      match Gather(cam, idx[..|idx| - 1])
      case None => None
      case Some(vs) =>
        if InBounds(i, |cam|) then Some(vs + [cam[Wrap(i, |cam|)]]) else None
  }

  /** Every vertex of the face is far enough from the eye. */
  predicate FaceVisible(cam: seq<Vector3>, idx: seq<int>)
    requires IndicesValid(idx, |cam|)
  {
    forall j :: 0 <= j < |idx| ==> Visible(cam[Wrap(idx[j], |cam|)])
  }

  /** `normalize`, the square root passed in: the zero vector stays zero. */
  function Normalize(v: Vector3, sqrt: real -> real): Vector3 {
    var m := sqrt(Dot(v, v));
    if m != 0.0 then Vector3(v.x / m, v.y / m, v.z / m) else Zero
  }

  /** The direction the light comes from, before normalisation. */
  const LightSource: Vector3 := Vector3(0.4, -0.8, 0.4)

  /** The lighting of a face from its first three vertices: the cosine of
      the angle between its normal and the light. */
  function Intensity(v0: Vector3, v1: Vector3, v2: Vector3, sqrt: real -> real): real {
    Dot(Normalize(FaceNormal(v0, v1, v2), sqrt), Normalize(LightSource, sqrt))
  }

  /** A face whose first three vertices do not span a plane has no normal;
      `normalize` leaves it zero, so the face gets no light at all. */
  lemma DegenerateFaceUnlit(v0: Vector3, v1: Vector3, v2: Vector3, sqrt: real -> real)
    requires FaceNormal(v0, v1, v2) == Zero
    ensures Intensity(v0, v1, v2, sqrt) == 0.0
    ensures Brightness(Intensity(v0, v1, v2, sqrt)) == 0.5
  {
    assert Normalize(Zero, sqrt) == Zero;
  }

  /** `max(0.3, min(1.0, 0.5 + intensity * 0.5))`. */
  function Brightness(intensity: real): (val: real)
    ensures 0.3 <= val <= 1.0
    ensures -0.4 <= intensity <= 1.0 ==> val == 0.5 + intensity * 0.5
    ensures intensity <= -0.4 ==> val == 0.3
    ensures intensity >= 1.0 ==> val == 1.0
  {
    Max(0.3, Min(1.0, 0.5 + intensity * 0.5))
  }

  /** More light never gives a darker face. */
  lemma BrightnessMonotone(a: real, b: real)
    requires a <= b
    ensures Brightness(a) <= Brightness(b)
  {
  }

  /** Polygons are `draw`'s render-list kind 1, lines its kind 2. */
  datatype Kind = Polygon | Line

  /** One entry of the render list: depth, kind, projected points, colour,
      and the index of the object it belongs to (the `obj:i` tag). */
  datatype RenderItem = RenderItem(depth: real, kind: Kind, points: seq<(real, real)>, color: Color, tag: nat)

  /** What every entry made for object `tag` satisfies: at least two points,
      not nearer than the limit, and a line exactly when the object is one. */
  predicate ItemFits(item: RenderItem, tag: nat, isLine: bool) {
    && item.tag == tag
    && item.depth >= NearLimit
    && |item.points| >= 2
    && (item.kind == Line <==> isLine)
  }

  /** The average of `n` depths each at least the limit is at least the
      limit. */
  lemma AverageAtLeast(sum: real, n: int)
    requires n >= 1 && sum >= NearLimit * n as real
    ensures sum / n as real >= NearLimit
  {
    assert sum / n as real >= (NearLimit * n as real) / n as real;
  }

  /** The colour a lit polygon is filled with, from its first three
      vertices. */
  function Lit(color: Color, sub: seq<Vector3>, sqrt: real -> real): Color
    requires |sub| >= 3
  {
    Shade(color, Brightness(Intensity(sub[0], sub[1], sub[2], sqrt)))
  }

  /** One face: `Err` for the `IndexError`s, `Ok(None)` when it is culled or
      has fewer than two vertices, otherwise its render-list entry. */
  function FaceItem(cam: seq<Vector3>, face: Face, isLine: bool, tag: nat, sqrt: real -> real)
    : Result<Option<RenderItem>, string>
  {
    match Gather(cam, face.indices)
    case None => Err(IndexError)
    case Some(sub) =>
      match Project(sub)
      case None => Ok(None)
      case Some(p) =>
        if |sub| <= 1 then Ok(None)
        else
          var avg := p.depthSum / |sub| as real;
          if isLine then Ok(Some(RenderItem(avg, Line, p.points, face.color, tag)))
          else if |sub| < 3 then Err(IndexError)
          else Ok(Some(RenderItem(avg, Polygon, p.points, Lit(face.color, sub, sqrt), tag)))
  }

  /** A face draws without error unless one of its indices is out of range,
      or it is a visible polygon face with two vertices, so that the
      lighting's third vertex is missing. */
  predicate FaceDrawable(cam: seq<Vector3>, face: Face, isLine: bool) {
    && IndicesValid(face.indices, |cam|)
    && !(FaceVisible(cam, face.indices) && |face.indices| == 2 && !isLine)
  }

  lemma FaceItemFails(cam: seq<Vector3>, face: Face, isLine: bool, tag: nat, sqrt: real -> real)
    ensures FaceItem(cam, face, isLine, tag, sqrt).Ok? <==> FaceDrawable(cam, face, isLine)
  {
  }

  /** A face is skipped without error exactly when its indices are valid and
      it has a vertex nearer than the limit or fewer than two vertices. */
  lemma FaceItemSkipped(cam: seq<Vector3>, face: Face, isLine: bool, tag: nat, sqrt: real -> real)
    ensures FaceItem(cam, face, isLine, tag, sqrt) == Ok(None) <==>
      (IndicesValid(face.indices, |cam|)
       && (!FaceVisible(cam, face.indices) || |face.indices| <= 1))
  {
  }

  /** A face that is drawn is wholly visible, keeps all its points, is no
      nearer than the limit on average, and a line keeps its colour. */
  lemma FaceItemEntry(cam: seq<Vector3>, face: Face, isLine: bool, tag: nat, sqrt: real -> real)
    requires FaceItem(cam, face, isLine, tag, sqrt).Ok?
    requires FaceItem(cam, face, isLine, tag, sqrt).value.Some?
    ensures var item := FaceItem(cam, face, isLine, tag, sqrt).value.value;
      && ItemFits(item, tag, isLine)
      && IndicesValid(face.indices, |cam|) && FaceVisible(cam, face.indices)
      && |item.points| == |face.indices|
      && (isLine ==> item.color == face.color)
  {
    var sub := Gather(cam, face.indices).value;
    var p := Project(sub).value;
    AverageAtLeast(p.depthSum, |sub|);
  }

  /** A lit polygon of a well-formed colour is drawn in a darker or equal
      `#rrggbb` of lower-case digits; a colour without `#` is drawn as is. */
  lemma FaceItemColour(cam: seq<Vector3>, face: Face, tag: nat, sqrt: real -> real)
    requires FaceItem(cam, face, false, tag, sqrt).Ok?
    requires FaceItem(cam, face, false, tag, sqrt).value.Some?
    ensures var c := FaceItem(cam, face, false, tag, sqrt).value.value.color;
      && (WellFormed(face.color) ==> |c| == 7 && c[0] == '#' && LowerHex(c[1..]))
      && (|face.color| == 0 || face.color[0] != '#' ==> c == face.color)
  {
    var sub := Gather(cam, face.indices).value;
    var val := Brightness(Intensity(sub[0], sub[1], sub[2], sqrt));
    if WellFormed(face.color) {
      ShadeShape(face.color, val);
    }
  }

  /** The faces of one object in order; the first `IndexError` aborts. */
  function FacesItems(cam: seq<Vector3>, faces: seq<Face>, isLine: bool, tag: nat, sqrt: real -> real)
    : Result<seq<RenderItem>, string>
  {
    if |faces| == 0 then Ok([])
    else
      var n := |faces| - 1;
      match FacesItems(cam, faces[..n], isLine, tag, sqrt)
      case Err(e) => Err(e)
      case Ok(items) =>
        match FaceItem(cam, faces[n], isLine, tag, sqrt)
        case Err(e) => Err(e)
        case Ok(None) => Ok(items)
        case Ok(Some(item)) => Ok(items + [item])
  }

  /** An object's faces draw without error exactly when each face does. */
  lemma {:induction false} FacesItemsOk(cam: seq<Vector3>, faces: seq<Face>, isLine: bool, tag: nat,
                                        sqrt: real -> real)
    ensures FacesItems(cam, faces, isLine, tag, sqrt).Ok? <==> AllDrawable(cam, faces, isLine)
  {
    if |faces| > 0 {
      var n := |faces| - 1;
      var prefix := faces[..n];
      FacesItemsOk(cam, prefix, isLine, tag, sqrt);
      FaceItemFails(cam, faces[n], isLine, tag, sqrt);
      FacesItemsStep(cam, faces, isLine, tag, sqrt);
      AllDrawableSplit(cam, faces, isLine);
    }
  }

  /** The last face decides together with all the faces before it. */
  lemma FacesItemsStep(cam: seq<Vector3>, faces: seq<Face>, isLine: bool, tag: nat, sqrt: real -> real)
    requires |faces| > 0
    ensures var n := |faces| - 1;
      FacesItems(cam, faces, isLine, tag, sqrt).Ok? <==>
        FacesItems(cam, faces[..n], isLine, tag, sqrt).Ok? && FaceItem(cam, faces[n], isLine, tag, sqrt).Ok?
  {
  }

  /** Every face of the object can be drawn. */
  predicate AllDrawable(cam: seq<Vector3>, faces: seq<Face>, isLine: bool) {
    forall f :: 0 <= f < |faces| ==> FaceDrawable(cam, faces[f], isLine)
  }

  /** All faces draw when the ones before the last do and the last one does. */
  lemma AllDrawableSplit(cam: seq<Vector3>, faces: seq<Face>, isLine: bool)
    requires |faces| > 0
    ensures var n := |faces| - 1;
      AllDrawable(cam, faces, isLine) <==> AllDrawable(cam, faces[..n], isLine) && FaceDrawable(cam, faces[n], isLine)
  {
    var n := |faces| - 1;
    assert forall f :: 0 <= f < n ==> faces[..n][f] == faces[f];
  }

  /** Every entry made for an object fits it, and there is at most one entry
      per face. */
  lemma {:induction false} FacesItemsFit(cam: seq<Vector3>, faces: seq<Face>, isLine: bool, tag: nat,
                                         sqrt: real -> real)
    requires FacesItems(cam, faces, isLine, tag, sqrt).Ok?
    ensures var items := FacesItems(cam, faces, isLine, tag, sqrt).value;
      |items| <= |faces| && forall k :: 0 <= k < |items| ==> ItemFits(items[k], tag, isLine)
  {
    if |faces| > 0 {
      var n := |faces| - 1;
      FacesItemsFit(cam, faces[..n], isLine, tag, sqrt);
      var last := FaceItem(cam, faces[n], isLine, tag, sqrt);
      if last.Ok? && last.value.Some? {
        FaceItemEntry(cam, faces[n], isLine, tag, sqrt);
        AppendFits(FacesItems(cam, faces[..n], isLine, tag, sqrt).value, [last.value.value], tag, isLine);
      }
    }
  }

  lemma AppendFits(a: seq<RenderItem>, b: seq<RenderItem>, tag: nat, isLine: bool)
    requires forall k :: 0 <= k < |a| ==> ItemFits(a[k], tag, isLine)
    requires forall k :: 0 <= k < |b| ==> ItemFits(b[k], tag, isLine)
    ensures forall k :: 0 <= k < |a + b| ==> ItemFits((a + b)[k], tag, isLine)
  {
  }

  /** An object's vertices in camera space. */
  function CameraVerts(o: Object3D, cam: Camera): (cs: seq<Vector3>)
    ensures |cs| == |o.rawVerts|
  {
    var world := WorldVerts(o);
    seq(|world|, i requires 0 <= i < |world| => ToCamera(cam, world[i]))
  }

  function ObjectItems(o: Object3D, tag: nat, cam: Camera, sqrt: real -> real): Result<seq<RenderItem>, string> {
    FacesItems(CameraVerts(o, cam), o.faces, o.isLine, tag, sqrt)
  }

  /** The render list before sorting: objects in order, each tagged with its
      index. */
  function RenderList(objects: seq<Object3D>, cam: Camera, sqrt: real -> real)
    : Result<seq<RenderItem>, string>
  {
    if |objects| == 0 then Ok([])
    else
      var n := |objects| - 1;
      match RenderList(objects[..n], cam, sqrt)
      case Err(e) => Err(e)
      case Ok(items) =>
        match ObjectItems(objects[n], n, cam, sqrt)
        case Err(e) => Err(e)
        case Ok(more) => Ok(items + more)
  }

  /** The frame draws without error exactly when every object does. */
  lemma {:induction false} RenderListOk(objects: seq<Object3D>, cam: Camera, sqrt: real -> real)
    ensures RenderList(objects, cam, sqrt).Ok? <==>
      forall i :: 0 <= i < |objects| ==> ObjectItems(objects[i], i, cam, sqrt).Ok?
  {
    if |objects| > 0 {
      var n := |objects| - 1;
      RenderListOk(objects[..n], cam, sqrt);
      assert forall i :: 0 <= i < n ==> objects[..n][i] == objects[i];
    }
  }

  /** Every entry of the render list names an existing object and fits it. */
  lemma {:induction false} RenderListFits(objects: seq<Object3D>, cam: Camera, sqrt: real -> real)
    requires RenderList(objects, cam, sqrt).Ok?
    ensures TaggedFits(objects, RenderList(objects, cam, sqrt).value)
  {
    if |objects| > 0 {
      var n := |objects| - 1;
      RenderListFits(objects[..n], cam, sqrt);
      var o := objects[n];
      FacesItemsFit(CameraVerts(o, cam), o.faces, o.isLine, n, sqrt);
      AppendTagged(objects, n, RenderList(objects[..n], cam, sqrt).value, ObjectItems(o, n, cam, sqrt).value);
    }
  }

  /** Entries of the first `n` objects followed by those of object `n` fit
      the whole list. */
  predicate TaggedFits(objects: seq<Object3D>, items: seq<RenderItem>) {
    forall k :: 0 <= k < |items| ==>
      items[k].tag < |objects| && ItemFits(items[k], items[k].tag, objects[items[k].tag].isLine)
  }

  lemma AppendTagged(objects: seq<Object3D>, n: nat, items: seq<RenderItem>, more: seq<RenderItem>)
    requires n < |objects|
    requires TaggedFits(objects[..n], items)
    requires forall k :: 0 <= k < |more| ==> ItemFits(more[k], n, objects[n].isLine)
    ensures TaggedFits(objects, items + more)
  {
    var all := items + more;
    forall k | 0 <= k < |all|
      ensures all[k].tag < |objects| && ItemFits(all[k], all[k].tag, objects[all[k].tag].isLine)
    {
      if k < |items| {
        assert all[k] == items[k];
        assert objects[..n][items[k].tag] == objects[items[k].tag];
      } else {
        assert all[k] == more[k - |items|];
      }
    }
  }

  /** The sort key: a descending sort on depth is an ascending one on its
      negation. */
  function DepthKey(item: RenderItem): real {
    -item.depth
  }

  /** `draw` up to the canvas calls: the render list, furthest first. */
  function Draw(objects: seq<Object3D>, cam: Camera, sqrt: real -> real)
    : (r: Result<seq<RenderItem>, string>)
    ensures r.Ok? <==> RenderList(objects, cam, sqrt).Ok?
    ensures r.Ok? ==> multiset(r.value) == multiset(RenderList(objects, cam, sqrt).value)
    ensures r.Ok? ==> forall i, j :: 0 <= i < j < |r.value| ==> r.value[i].depth >= r.value[j].depth
  {
    match RenderList(objects, cam, sqrt)
    case Err(e) => Err(e)
    case Ok(items) =>
      var sorted := Sort(items, DepthKey);
      assert forall i, j :: 0 <= i < j < |sorted| ==> DepthKey(sorted[i]) <= DepthKey(sorted[j]);
      Ok(sorted)
  }

  /** An object draws without an `IndexError` when its face indices are all
      valid Python indices of its vertex list and, unless it is a line, no
      face has exactly two vertices. */
  predicate Renderable(o: Object3D) {
    forall f :: 0 <= f < |o.faces| ==>
      IndicesValid(o.faces[f].indices, |o.rawVerts|) && (o.isLine || |o.faces[f].indices| != 2)
  }

  lemma RenderableDraws(o: Object3D, tag: nat, cam: Camera, sqrt: real -> real)
    requires Renderable(o)
    ensures ObjectItems(o, tag, cam, sqrt).Ok?
  {
    FacesItemsOk(CameraVerts(o, cam), o.faces, o.isLine, tag, sqrt);
  }

  /** Every box `create_box` builds draws without error, from any camera. */
  lemma BoxDraws(name: string, w: real, h: real, d: real, c: Color, pos: Vector3, tag: nat,
                 cam: Camera, sqrt: real -> real)
    ensures var box := CreateBox(w, h, d, c);
      ObjectItems(NewObject(name, box.verts, box.faces, pos, false), tag, cam, sqrt).Ok?
  {
    var box := CreateBox(w, h, d, c);
    var o := NewObject(name, box.verts, box.faces, pos, false);
    forall f | 0 <= f < |o.faces|
      ensures IndicesValid(o.faces[f].indices, |o.rawVerts|)
    {
      forall j | 0 <= j < |o.faces[f].indices|
        ensures InBounds(o.faces[f].indices[j], |o.rawVerts|)
      {
        assert 0 <= box.faces[f].indices[j] < |box.verts|;
      }
    }
    RenderableDraws(o, tag, cam, sqrt);
  }

  /** One frame of `update_loop` before drawing: every object eases once. */
  function Frame(objects: seq<Object3D>): (r: seq<Object3D>)
    ensures |r| == |objects|
  {
    seq(|objects|, i requires 0 <= i < |objects| => Update(objects[i]))
  }

  /** Frames keep every object's scale within range. */
  lemma FrameKeepsRange(objects: seq<Object3D>)
    requires forall i :: 0 <= i < |objects| ==> ScaleInRange(objects[i])
    ensures forall i :: 0 <= i < |objects| ==> ScaleInRange(Frame(objects)[i])
  {
    forall i | 0 <= i < |objects|
      ensures ScaleInRange(Frame(objects)[i])
    {
      UpdateKeepsRange(objects[i]);
    }
  }
}
