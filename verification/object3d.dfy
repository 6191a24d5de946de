/** The viewer's `Object3D`: a mesh placed at a position, with a uniform
    scale that eases towards a target, a selection flag, and line objects that
    cannot be selected. */
module Objects {
  import opened Numeric
  import opened VectorMath
  import opened Mesh

  /** Height of the floor plane; shadows are drawn one unit below it. */
  const FloorY: real := 150.0

  /** The fixed sideways offset of the projected shadow. */
  const ShadowOffset: real := 30.0

  /** Scale of a selected object; an unselected object returns to 1.0. */
  const SelectedScale: real := 1.1

  /** The distance below which easing snaps to the target. */
  const SnapDistance: real := 0.01

  /** The fraction of the remaining distance covered per frame. */
  const Easing: real := 0.2

  datatype Object3D = Object3D(
    name: string,
    rawVerts: seq<Vector3>,
    faces: seq<Face>,
    pos: Vector3,
    scaleVal: real,
    selected: bool,
    targetScale: real,
    isLine: bool)

  /** The scale an object is heading for, given its selection. */
  function TargetFor(selected: bool): real {
    if selected then SelectedScale else 1.0
  }

  /** Selection and target scale agree, as they do from construction on. */
  predicate Consistent(o: Object3D) {
    o.targetScale == TargetFor(o.selected)
  }

  /** Consistent, and the scale between normal and the selected size. */
  predicate ScaleInRange(o: Object3D) {
    Consistent(o) && 1.0 <= o.scaleVal <= SelectedScale
  }

  /** The constructor: at normal size, unselected and at rest. */
  function NewObject(name: string, verts: seq<Vector3>, faces: seq<Face>, pos: Vector3,
                     isLine: bool): (o: Object3D)
    ensures ScaleInRange(o) && !o.selected && o.scaleVal == o.targetScale
    ensures o.rawVerts == verts && o.faces == faces && o.pos == pos && o.isLine == isLine
  {
    Object3D(name, verts, faces, pos, 1.0, false, 1.0, isLine)
  }

  /** The signed distance from the current scale to the target. */
  function Gap(o: Object3D): real {
    o.targetScale - o.scaleVal
  }

  /** `update`: one frame of easing. */
  function Update(o: Object3D): (p: Object3D)
    ensures p == o.(scaleVal := p.scaleVal)
    ensures Abs(Gap(o)) > SnapDistance ==> Gap(p) == 0.8 * Gap(o)
    ensures Abs(Gap(o)) <= SnapDistance ==> Gap(p) == 0.0
  {
    var diff := o.targetScale - o.scaleVal;
    if Abs(diff) > SnapDistance then o.(scaleVal := o.scaleVal + diff * Easing)
    else o.(scaleVal := o.targetScale)
  }

  /** Easing never overshoots: the new scale lies between the old one and
      the target, and the distance to the target shrinks unless it is zero. */
  lemma UpdateNoOvershoot(o: Object3D)
    ensures var p := Update(o);
      Min(o.scaleVal, o.targetScale) <= p.scaleVal <= Max(o.scaleVal, o.targetScale)
      && Abs(Gap(p)) <= Abs(Gap(o))
      && (Gap(o) != 0.0 ==> Abs(Gap(p)) < Abs(Gap(o)))
  {
  }

  /** An object is left alone by `update` exactly when it has reached its
      target. */
  lemma UpdateFixedPoint(o: Object3D)
    ensures Update(o) == o <==> o.scaleVal == o.targetScale
  {
  }

  /** `update` keeps the scale within range. */
  lemma UpdateKeepsRange(o: Object3D)
    requires ScaleInRange(o)
    ensures ScaleInRange(Update(o))
  {
    UpdateNoOvershoot(o);
  }

  /** `a` shrunk by a fifth `n` times over, that is `a * 0.8^n`. */
  function Decayed(a: real, n: nat): real {
    if n == 0 then a else 0.8 * Decayed(a, n - 1)
  }

  /** `n` frames. */
  function Updates(o: Object3D, n: nat): Object3D {
    if n == 0 then o else Update(Updates(o, n - 1))
  }

  /** After `n` frames the distance to the target is at most `0.8^n` times
      the starting distance, and the target has not moved. */
  lemma {:induction false} UpdatesConverge(o: Object3D, n: nat)
    ensures Abs(Gap(Updates(o, n))) <= Decayed(Abs(Gap(o)), n)
    ensures Updates(o, n).targetScale == o.targetScale
  {
    if n > 0 {
      UpdatesConverge(o, n - 1);
      UpdateShrinks(Updates(o, n - 1));
    }
  }

  /** One frame takes at least a fifth off the distance to the target. */
  lemma UpdateShrinks(o: Object3D)
    ensures Abs(Gap(Update(o))) <= 0.8 * Abs(Gap(o))
  {
  }

  /** `toggle_select`: returns the new selection; a line object refuses and
      reports `False`. */
  function ToggleSelect(o: Object3D): (r: (bool, Object3D))
    ensures o.isLine ==> r == (false, o)
    ensures !o.isLine ==> r.1.selected == !o.selected && r.0 == r.1.selected
    ensures !o.isLine ==> Consistent(r.1) && r.1 == o.(selected := r.1.selected, targetScale := r.1.targetScale)
  {
    if o.isLine then (false, o)
    else
      var sel := !o.selected;
      (sel, o.(selected := sel, targetScale := if sel then SelectedScale else 1.0))
  }

  /** Toggling twice restores the object. */
  lemma ToggleTwice(o: Object3D)
    requires o.isLine || Consistent(o)
    ensures ToggleSelect(ToggleSelect(o).1).1 == o
  {
  }

  /** Toggling keeps the scale within range: it moves only the target. */
  lemma ToggleKeepsRange(o: Object3D)
    requires ScaleInRange(o)
    ensures ScaleInRange(ToggleSelect(o).1)
  {
  }

  /** `get_world_verts`: each raw vertex scaled about the origin, then moved to
      the object's position. */
  function WorldVerts(o: Object3D): (ws: seq<Vector3>)
    ensures |ws| == |o.rawVerts|
    ensures forall i :: 0 <= i < |ws| ==> ws[i] == Add(Mul(o.rawVerts[i], o.scaleVal), o.pos)
  {
    seq(|o.rawVerts|, i requires 0 <= i < |o.rawVerts| => Add(Mul(o.rawVerts[i], o.scaleVal), o.pos))
  }

  /** The world transform can be undone when the scale is not zero: moving
      back and dividing by the scale recovers the model's vertices. */
  lemma WorldVertsInverse(o: Object3D)
    requires o.scaleVal != 0.0
    ensures var ws := WorldVerts(o);
      forall i :: 0 <= i < |ws| ==> Mul(Sub(ws[i], o.pos), 1.0 / o.scaleVal) == o.rawVerts[i]
  {
    var ws := WorldVerts(o);
    forall i | 0 <= i < |ws|
      ensures Mul(Sub(ws[i], o.pos), 1.0 / o.scaleVal) == o.rawVerts[i]
    {
      var v := o.rawVerts[i];
      MulRecip(v.x, o.scaleVal);
      MulRecip(v.y, o.scaleVal);
      MulRecip(v.z, o.scaleVal);
    }
  }

  /** At rest at normal size, the world vertices are the model's vertices
      moved to the position. */
  lemma WorldVertsAtNormalSize(o: Object3D)
    requires o.scaleVal == 1.0
    ensures WorldVerts(o) == seq(|o.rawVerts|, i requires 0 <= i < |o.rawVerts| => Add(o.rawVerts[i], o.pos))
  {
  }

  /** `get_shadow_verts`: the world vertices pushed sideways by the fixed
      offset and flattened onto the plane just below the floor; line objects
      cast no shadow. */
  function ShadowVerts(o: Object3D, world: seq<Vector3>): (r: seq<Vector3>)
    ensures o.isLine ==> r == []
    ensures !o.isLine ==> |r| == |world| && forall i :: 0 <= i < |r| ==>
      r[i].y == FloorY + 1.0 && r[i].x - world[i].x == ShadowOffset && r[i].z - world[i].z == ShadowOffset
  {
    if o.isLine then
      []
    else
      seq(|world|, i requires 0 <= i < |world| =>
        Vector3(world[i].x + ShadowOffset, FloorY + 1.0, world[i].z + ShadowOffset))
  }

  /** A shadow does not depend on the height of what casts it: two vertex
      lists that agree on `x` and `z` cast the same shadow. */
  lemma ShadowIgnoresHeight(o: Object3D, a: seq<Vector3>, b: seq<Vector3>)
    requires |a| == |b| && forall i :: 0 <= i < |a| ==> a[i].x == b[i].x && a[i].z == b[i].z
    ensures ShadowVerts(o, a) == ShadowVerts(o, b)
  {
  }

  /** Moving the object moves its shadow by the horizontal part of the move. */
  lemma ShadowFollowsObject(o: Object3D, world: seq<Vector3>, t: Vector3)
    requires !o.isLine
    ensures var moved := seq(|world|, i requires 0 <= i < |world| => Add(world[i], t));
      var s := ShadowVerts(o, world);
      ShadowVerts(o, moved) == seq(|s|, i requires 0 <= i < |s| => Add(s[i], Vector3(t.x, 0.0, t.z)))
  {
  }
}
