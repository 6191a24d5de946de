/** The viewer's mesh factories: a vertex list and a list of faces, each face
    a list of vertex indices with a colour. */
module Mesh {
  import opened Numeric
  import opened VectorMath
  import opened PixelBuffer

  datatype Face = Face(indices: seq<int>, color: Color)

  datatype MeshData = MeshData(verts: seq<Vector3>, faces: seq<Face>)

  /** Every index of every face names a vertex of the mesh. */
  predicate IndicesInRange(m: MeshData) {
    forall f, j :: 0 <= f < |m.faces| && 0 <= j < |m.faces[f].indices| ==>
      0 <= m.faces[f].indices[j] < |m.verts|
  }

  predicate AllColored(m: MeshData, c: Color) {
    forall f :: 0 <= f < |m.faces| ==> m.faces[f].color == c
  }

  /** The `j`-th vertex of face `f`. */
  function FaceVertex(m: MeshData, f: nat, j: nat): Vector3
    requires f < |m.faces| && j < |m.faces[f].indices| && IndicesInRange(m)
  {
    m.verts[m.faces[f].indices[j]]
  }

  // ---------------------------------------------------------------------
  // create_box

  /** The box's corners, bottom-back first, in the order of `create_box`:
      the back face (z = -d/2) anticlockwise from (-,-), then the front face. */
  function BoxCorners(hw: real, hh: real, hd: real): seq<Vector3> {
    [ Vector3(-hw, -hh, -hd), Vector3(hw, -hh, -hd),
      Vector3(hw, hh, -hd), Vector3(-hw, hh, -hd),
      Vector3(-hw, -hh, hd), Vector3(hw, -hh, hd),
      Vector3(hw, hh, hd), Vector3(-hw, hh, hd) ]
  }

  /** `create_box`: a box centred on the origin with six quads. */
  function CreateBox(w: real, h: real, d: real, c: Color): (m: MeshData)
    ensures |m.verts| == 8 && |m.faces| == 6
    ensures forall i :: 0 <= i < 8 ==>
      (m.verts[i].x == w / 2.0 || m.verts[i].x == -(w / 2.0)) &&
      (m.verts[i].y == h / 2.0 || m.verts[i].y == -(h / 2.0)) &&
      (m.verts[i].z == d / 2.0 || m.verts[i].z == -(d / 2.0))
    ensures forall f :: 0 <= f < 6 ==> |m.faces[f].indices| == 4
    ensures IndicesInRange(m) && AllColored(m, c)
  {
    var faces := [
      Face([0, 1, 2, 3], c), Face([5, 4, 7, 6], c), Face([4, 0, 3, 7], c),
      Face([1, 5, 6, 2], c), Face([3, 2, 6, 7], c), Face([4, 5, 1, 0], c) ];
    MeshData(BoxCorners(w / 2.0, h / 2.0, d / 2.0), faces)
  }

  /** Which axis, and which end of it, face `f` of a box lies on. */
  function BoxSide(f: nat): (int, bool)
    requires f < 6
  {
    [(2, false), (2, true), (0, false), (0, true), (1, true), (1, false)][f]
  }

  function Coord(v: Vector3, axis: int): real {
    if axis == 0 then v.x else if axis == 1 then v.y else v.z
  }

  /** The six faces of the box are its six sides: the back, front, left,
      right, top and bottom planes, each covered exactly once. */
  lemma BoxFacesAreSides(w: real, h: real, d: real, c: Color)
    ensures var m := CreateBox(w, h, d, c);
      forall f, j :: 0 <= f < 6 && 0 <= j < 4 ==>
        var (axis, far) := BoxSide(f);
        var half := [w, h, d][axis] / 2.0;
        Coord(FaceVertex(m, f, j), axis) == if far then half else -half
    ensures forall f, g :: 0 <= f < g < 6 ==> BoxSide(f) != BoxSide(g)
  {
  }

  /** The normal the renderer computes for a face: the cross product of the
      edges from its first corner to the second and third. */
  function FaceNormal(a: Vector3, b: Vector3, c: Vector3): Vector3 {
    Cross(Sub(b, a), Sub(c, a))
  }

  /** All six faces are wound the same way: for a box of positive size every
      face's normal points towards the centre, with the same dot product
      `-w*h*d/2` against the face's first corner. */
  lemma BoxWindingConsistent(w: real, h: real, d: real, c: Color)
    ensures var m := CreateBox(w, h, d, c);
      forall f :: 0 <= f < 6 ==>
        Dot(FaceNormal(FaceVertex(m, f, 0), FaceVertex(m, f, 1), FaceVertex(m, f, 2)),
            FaceVertex(m, f, 0)) == -(w * h * d) / 2.0
  {
    var m := CreateBox(w, h, d, c);
    forall f | 0 <= f < 6
      ensures Dot(FaceNormal(FaceVertex(m, f, 0), FaceVertex(m, f, 1), FaceVertex(m, f, 2)),
                  FaceVertex(m, f, 0)) == -(w * h * d) / 2.0
    {
      BoxFaceWinding(w, h, d, c, f);
      HalfVolume(w, h, d);
    }
  }

  /** One face of the box, with its corners spelled out. */
  lemma BoxFaceWinding(w: real, h: real, d: real, c: Color, f: nat)
    requires f < 6
    ensures var m := CreateBox(w, h, d, c);
      Dot(FaceNormal(FaceVertex(m, f, 0), FaceVertex(m, f, 1), FaceVertex(m, f, 2)),
          FaceVertex(m, f, 0)) == -4.0 * (w / 2.0) * (h / 2.0) * (d / 2.0)
  {
    var m := CreateBox(w, h, d, c);
    var hw, hh, hd := w / 2.0, h / 2.0, d / 2.0;
    var a, b, e := FaceVertex(m, f, 0), FaceVertex(m, f, 1), FaceVertex(m, f, 2);
    if f == 0 {
      BackWinding(a, b, e, hw, hh, hd);
    } else if f == 1 {
      FrontWinding(a, b, e, hw, hh, hd);
    } else if f == 2 {
      LeftWinding(a, b, e, hw, hh, hd);
    } else if f == 3 {
      RightWinding(a, b, e, hw, hh, hd);
    } else if f == 4 {
      TopWinding(a, b, e, hw, hh, hd);
    } else {
      BottomWinding(a, b, e, hw, hh, hd);
    }
  }

  /** The back (z = -d/2) face's first three corners, in terms of the half sizes. */
  lemma BackWinding(a: Vector3, b: Vector3, e: Vector3, hw: real, hh: real, hd: real)
    requires a == Vector3(-hw, -hh, -hd) && b == Vector3(hw, -hh, -hd) && e == Vector3(hw, hh, -hd)
    ensures Dot(FaceNormal(a, b, e), a) == -4.0 * hw * hh * hd
  {
  }

  /** The front (z = d/2) face's first three corners, in terms of the half sizes. */
  lemma FrontWinding(a: Vector3, b: Vector3, e: Vector3, hw: real, hh: real, hd: real)
    requires a == Vector3(hw, -hh, hd) && b == Vector3(-hw, -hh, hd) && e == Vector3(-hw, hh, hd)
    ensures Dot(FaceNormal(a, b, e), a) == -4.0 * hw * hh * hd
  {
  }

  /** The left (x = -w/2) face's first three corners, in terms of the half sizes. */
  lemma LeftWinding(a: Vector3, b: Vector3, e: Vector3, hw: real, hh: real, hd: real)
    requires a == Vector3(-hw, -hh, hd) && b == Vector3(-hw, -hh, -hd) && e == Vector3(-hw, hh, -hd)
    ensures Dot(FaceNormal(a, b, e), a) == -4.0 * hw * hh * hd
  {
  }

  /** The right (x = w/2) face's first three corners, in terms of the half sizes. */
  lemma RightWinding(a: Vector3, b: Vector3, e: Vector3, hw: real, hh: real, hd: real)
    requires a == Vector3(hw, -hh, -hd) && b == Vector3(hw, -hh, hd) && e == Vector3(hw, hh, hd)
    ensures Dot(FaceNormal(a, b, e), a) == -4.0 * hw * hh * hd
  {
  }

  /** The top (y = h/2) face's first three corners, in terms of the half sizes. */
  lemma TopWinding(a: Vector3, b: Vector3, e: Vector3, hw: real, hh: real, hd: real)
    requires a == Vector3(-hw, hh, -hd) && b == Vector3(hw, hh, -hd) && e == Vector3(hw, hh, hd)
    ensures Dot(FaceNormal(a, b, e), a) == -4.0 * hw * hh * hd
  {
  }

  /** The bottom (y = -h/2) face's first three corners, in terms of the half sizes. */
  lemma BottomWinding(a: Vector3, b: Vector3, e: Vector3, hw: real, hh: real, hd: real)
    requires a == Vector3(-hw, -hh, hd) && b == Vector3(hw, -hh, hd) && e == Vector3(hw, -hh, -hd)
    ensures Dot(FaceNormal(a, b, e), a) == -4.0 * hw * hh * hd
  {
  }

  lemma HalfVolume(w: real, h: real, d: real)
    ensures -4.0 * (w / 2.0) * (h / 2.0) * (d / 2.0) == -(w * h * d) / 2.0
  {
  }

  // ---------------------------------------------------------------------
  // create_cylinder

  /** The number of times `range(segments)` runs. */
  function Count(segments: int): nat {
    if segments > 0 then segments else 0
  }

  /** The neighbour of ring position `i`, wrapping the last to the first;
      `create_cylinder` writes it `(i + 1) % segments`. */
  function NextIndex(i: int, n: int): int {
    if i + 1 < n then i + 1 else 0
  }

  lemma NextIndexWraps(i: int, n: int)
    requires 0 <= i < n
    ensures NextIndex(i, n) == (i + 1) % n
  {
  }

  /** `[a, a+1, ..., b-1]`. */
  function Range(a: int, b: int): (r: seq<int>)
    ensures |r| == if a <= b then b - a else 0
    ensures forall i :: 0 <= i < |r| ==> r[i] == a + i
  {
    seq(if a <= b then b - a else 0, i => a + i)
  }

  function Reverse<T>(s: seq<T>): (r: seq<T>)
    ensures |r| == |s| && forall i :: 0 <= i < |s| ==> r[i] == s[|s| - 1 - i]
  {
    seq(|s|, i requires 0 <= i < |s| => s[|s| - 1 - i])
  }

  /** A ring point for segment `i`, given the unit circle point `(cos, sin)`
      of its angle; the trigonometry is left to the caller. */
  function RingPoint(radius: real, y: real, unit: (real, real)): Vector3 {
    Vector3(radius * unit.0, y, radius * unit.1)
  }

  /** The side quads and the two caps, which assume that the top ring is at
      indices `0 .. n-1` and the bottom ring at `n .. 2n-1`. */
  function CylinderFaces(n: nat, c: Color): (faces: seq<Face>)
    ensures |faces| == n + 2
  {
    var sides := seq(n, i requires 0 <= i < n =>
      Face([i, i + n, NextIndex(i, n) + n, NextIndex(i, n)], c));
    sides + [Face(Range(0, n), c), Face(Reverse(Range(n, 2 * n)), c)]
  }

  /** The vertex list after `n` rounds of `create_cylinder`'s vertex loop: each
      round appends the top ring point and then the bottom one, so top points
      sit at even and bottom points at odd indices. */
  function InterleavedRings(radius: real, hh: real, n: nat, unit: int -> (real, real)): (vs: seq<Vector3>)
    ensures |vs| == 2 * n
    ensures forall k :: 0 <= k < n ==>
      vs[2 * k] == RingPoint(radius, hh, unit(k)) && vs[2 * k + 1] == RingPoint(radius, -hh, unit(k))
  {
    if n == 0 then []
    else
      var prev := InterleavedRings(radius, hh, n - 1, unit);
      prev + [RingPoint(radius, hh, unit(n - 1)), RingPoint(radius, -hh, unit(n - 1))]
  }

  /** `create_cylinder` as written. */
  function CreateCylinder(radius: real, height: real, segments: int, c: Color,
                          unit: int -> (real, real)): (m: MeshData)
    ensures |m.verts| == 2 * Count(segments) && |m.faces| == Count(segments) + 2
    ensures forall k :: 0 <= k < Count(segments) ==>
      m.verts[2 * k] == RingPoint(radius, height / 2.0, unit(k)) &&
      m.verts[2 * k + 1] == RingPoint(radius, -(height / 2.0), unit(k))
  {
    var n := Count(segments);
    MeshData(InterleavedRings(radius, height / 2.0, n, unit), CylinderFaces(n, c))
  }

  /** The faces the cylinder gets for `n` ring positions: `n` side quads,
      each joining position `i` to its neighbour on both rings, then the top
      cap listing `0 .. n-1` and the bottom cap listing `n .. 2n-1` backwards,
      all in the given colour. */
  lemma CylinderFacesShape(n: nat, c: Color)
    ensures var faces := CylinderFaces(n, c);
      && (forall i :: 0 <= i < n ==>
            faces[i].indices == [i, i + n, NextIndex(i, n) + n, NextIndex(i, n)])
      && faces[n].indices == Range(0, n)
      && Reverse(faces[n + 1].indices) == Range(n, 2 * n)
      && forall f :: 0 <= f < |faces| ==> faces[f].color == c
  {
    var r := Range(n, 2 * n);
    assert Reverse(Reverse(r)) == r;
  }

  /** Every index the cylinder's faces use lies in `[0, 2n)`. */
  lemma CylinderFacesInRange(n: nat, c: Color)
    ensures var faces := CylinderFaces(n, c);
      forall f, j :: 0 <= f < |faces| && 0 <= j < |faces[f].indices| ==>
        0 <= faces[f].indices[j] < 2 * n
  {
    var faces := CylinderFaces(n, c);
    CylinderFacesShape(n, c);
    forall f, j | 0 <= f < |faces| && 0 <= j < |faces[f].indices|
      ensures 0 <= faces[f].indices[j] < 2 * n
    {
      if f == n + 1 {
        var cap := faces[n + 1].indices;
        assert cap[j] == Reverse(cap)[n - 1 - j];
      }
    }
  }

  /** The faces of `create_cylinder`: `segments` side quads, where quad `i`
      is `create_cylinder`'s `[top1, bot1, bot2, top2]` with `(i + 1) % segments` as
      the neighbour, then the two caps; every index names a vertex and every
      face has the given colour. */
  lemma CylinderFaceShape(radius: real, height: real, segments: int, c: Color,
                          unit: int -> (real, real))
    ensures var m := CreateCylinder(radius, height, segments, c, unit);
      var n := Count(segments);
      && IndicesInRange(m) && AllColored(m, c)
      && (forall i :: 0 <= i < segments ==>
            m.faces[i].indices == [i, i + segments, (i + 1) % segments + segments, (i + 1) % segments])
      && m.faces[n].indices == Range(0, n)
      && Reverse(m.faces[n + 1].indices) == Range(n, 2 * n)
  {
    var n := Count(segments);
    CylinderFacesShape(n, c);
    CylinderFacesInRange(n, c);
    forall i | 0 <= i < segments
      ensures NextIndex(i, segments) == (i + 1) % segments
    {
      NextIndexWraps(i, segments);
    }
  }

  /** The top cap of the cylinder as written is not flat: its second index
      names a bottom ring point. */
  lemma CylinderTopCapMixesRings(radius: real, height: real, segments: int, c: Color,
                                 unit: int -> (real, real))
    requires segments >= 2 && height != 0.0
    ensures var m := CreateCylinder(radius, height, segments, c, unit);
      var cap := m.faces[segments].indices;
      m.verts[cap[0]].y == height / 2.0 && m.verts[cap[1]].y == -(height / 2.0)
      && m.verts[cap[0]].y != m.verts[cap[1]].y
  {
    var m := CreateCylinder(radius, height, segments, c, unit);
    CylinderCaps(segments, c);
    var cap := m.faces[segments].indices;
    assert cap[0] == 2 * 0 && cap[1] == 2 * 0 + 1;
  }

  /** The layout the faces expect: the whole top ring, then the whole bottom
      ring. */
  function CreateCylinderBlock(radius: real, height: real, segments: int, c: Color,
                               unit: int -> (real, real)): (m: MeshData)
    ensures |m.verts| == 2 * Count(segments) && |m.faces| == Count(segments) + 2
    ensures forall k :: 0 <= k < Count(segments) ==>
      m.verts[k] == RingPoint(radius, height / 2.0, unit(k)) &&
      m.verts[k + Count(segments)] == RingPoint(radius, -(height / 2.0), unit(k))
  {
    var n := Count(segments);
    var verts := seq(2 * n, k requires 0 <= k < 2 * n =>
      if k < n then RingPoint(radius, height / 2.0, unit(k))
      else RingPoint(radius, -(height / 2.0), unit(k - n)));
    MeshData(verts, CylinderFaces(n, c))
  }

  /** The block layout keeps the faces, so every index still names a vertex. */
  lemma CylinderBlockInRange(radius: real, height: real, segments: int, c: Color,
                             unit: int -> (real, real))
    ensures var m := CreateCylinderBlock(radius, height, segments, c, unit);
      IndicesInRange(m) && AllColored(m, c)
  {
    CylinderFacesShape(Count(segments), c);
    CylinderFacesInRange(Count(segments), c);
  }

  /** Side quad `i` of `CylinderFaces`. */
  lemma CylinderSide(n: nat, c: Color, i: nat)
    requires i < n
    ensures CylinderFaces(n, c)[i].indices == [i, i + n, NextIndex(i, n) + n, NextIndex(i, n)]
  {
  }

  /** The two caps of `CylinderFaces`, as the lists they are built from. */
  lemma CylinderCaps(n: nat, c: Color)
    ensures CylinderFaces(n, c)[n].indices == Range(0, n)
    ensures CylinderFaces(n, c)[n + 1].indices == Reverse(Range(n, 2 * n))
  {
  }

  /** With the block layout the top cap lies in the plane `y = height/2`. */
  lemma CylinderBlockTopFlat(radius: real, height: real, segments: int, c: Color,
                             unit: int -> (real, real))
    ensures var m := CreateCylinderBlock(radius, height, segments, c, unit);
      var top := m.faces[Count(segments)].indices;
      forall j :: 0 <= j < |top| ==> 0 <= top[j] < |m.verts| && m.verts[top[j]].y == height / 2.0
  {
    var m := CreateCylinderBlock(radius, height, segments, c, unit);
    var n := Count(segments);
    CylinderCaps(n, c);
    var top := m.faces[n].indices;
    forall j | 0 <= j < |top|
      ensures 0 <= top[j] < |m.verts| && m.verts[top[j]].y == height / 2.0
    {
      assert top[j] == j;
    }
  }

  /** With the block layout the bottom cap lies in the plane `y = -height/2`. */
  lemma CylinderBlockBottomFlat(radius: real, height: real, segments: int, c: Color,
                                unit: int -> (real, real))
    ensures var m := CreateCylinderBlock(radius, height, segments, c, unit);
      var bottom := m.faces[Count(segments) + 1].indices;
      forall j :: 0 <= j < |bottom| ==> 0 <= bottom[j] < |m.verts| && m.verts[bottom[j]].y == -(height / 2.0)
  {
    var m := CreateCylinderBlock(radius, height, segments, c, unit);
    var n := Count(segments);
    CylinderCaps(n, c);
    var bottom := m.faces[n + 1].indices;
    forall j | 0 <= j < |bottom|
      ensures 0 <= bottom[j] < |m.verts| && m.verts[bottom[j]].y == -(height / 2.0)
    {
      var k := n - 1 - j;
      assert bottom[j] == Range(n, 2 * n)[k] == n + k;
      assert m.verts[k + n] == RingPoint(radius, -(height / 2.0), unit(k));
    }
  }

  /** With the block layout each side quad stands upright between ring
      position `i` and its neighbour: the top point, the point below it, the
      neighbour below, the neighbour on top. */
  lemma CylinderBlockSidesUpright(radius: real, height: real, segments: int, c: Color,
                                  unit: int -> (real, real))
    ensures var m := CreateCylinderBlock(radius, height, segments, c, unit);
      var n := Count(segments);
      forall i :: 0 <= i < n ==> UprightQuad(m, i, RingPoint(radius, height / 2.0, unit(i)),
                                             RingPoint(radius, height / 2.0, unit(NextIndex(i, n))))
  {
    var m := CreateCylinderBlock(radius, height, segments, c, unit);
    var n := Count(segments);
    forall i | 0 <= i < n
      ensures UprightQuad(m, i, RingPoint(radius, height / 2.0, unit(i)),
                          RingPoint(radius, height / 2.0, unit(NextIndex(i, n))))
    {
      var k := NextIndex(i, n);
      CylinderSide(n, c, i);
      assert m.verts[i + n] == RingPoint(radius, -(height / 2.0), unit(i));
      assert m.verts[k + n] == RingPoint(radius, -(height / 2.0), unit(k));
    }
  }

  /** Side quad `i` runs from the top point `t` down to the bottom ring, across
      to the neighbour `u` below, and back up to `u`. */
  predicate UprightQuad(m: MeshData, i: nat, t: Vector3, u: Vector3) {
    && i < |m.faces| && |m.faces[i].indices| == 4
    && (forall j :: 0 <= j < 4 ==> 0 <= m.faces[i].indices[j] < |m.verts|)
    && m.verts[m.faces[i].indices[0]] == t
    && m.verts[m.faces[i].indices[1]] == t.(y := -t.y)
    && m.verts[m.faces[i].indices[2]] == u.(y := -u.y)
    && m.verts[m.faces[i].indices[3]] == u
  }
}
