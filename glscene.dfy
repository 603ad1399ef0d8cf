/** The state of the 3-D scene widget (src/stereoviewer/glscene.cpp) that is
    not OpenGL drawing: rotation angles in sixteenths of a degree and their
    normalisation, the orthographic view volume and its zoom, and the list of
    scene items that `add_point_set` extends.  Display lists are named by
    the caller (the value `glGenLists(1)` would return); a repaint
    (`updateGL`) is counted. */
module GLScene {
  import opened Wrappers
  import opened Arith
  import Math3D

  /** A full turn in sixteenths of a degree. */
  const FullTurn := 360 * 16

  /** The value `normalizeAngle` leaves: negative angles are raised by full
      turns until non-negative, angles above a full turn are lowered until
      at most a full turn, so a full turn itself stays. */
  function NormalAngle(a: int): (r: int)
  {
    if a < 0 then a % FullTurn
    else if a > FullTurn then (a - 1) % FullTurn + 1
    else a
  }

  /** The normal angle lies in `[0, FullTurn]`, differs from the input by
      whole turns, leaves angles already in range alone, and is the only
      such value apart from the choice between 0 and a full turn. */
  lemma NormalAngleSpec(a: int)
    ensures 0 <= NormalAngle(a) <= FullTurn
    ensures (NormalAngle(a) - a) % FullTurn == 0
    ensures 0 <= a <= FullTurn ==> NormalAngle(a) == a
    ensures a < 0 ==> NormalAngle(a) < FullTurn
    ensures a > FullTurn ==> NormalAngle(a) > 0
  {
  }

  lemma NormalAngleIdempotent(a: int)
    ensures NormalAngle(NormalAngle(a)) == NormalAngle(a)
  {
    NormalAngleSpec(a);
  }

  /** `normalizeAngle`, with its two loops. */
  method NormalizeAngle(angle: int) returns (r: int)
    ensures r == NormalAngle(angle)
  {
    r := angle;
    ghost var k := 0;
    while r < 0
      invariant r == angle + k * FullTurn && k >= 0
      invariant angle < 0 ==> r < FullTurn
      invariant angle >= 0 ==> k == 0
      decreases -r
    {
      r := r + FullTurn;
      k := k + 1;
    }
    if angle < 0 {
      DivModUnique(angle, FullTurn, -k, r);
    }
    k := 0;
    while r > FullTurn
      invariant angle < 0 ==> r == NormalAngle(angle)
      invariant angle >= 0 ==> r == angle - k * FullTurn && k >= 0 && r >= 0
      invariant k > 0 ==> r > 0
      invariant angle >= 0 && angle > FullTurn ==> k > 0 || r > FullTurn
    {
      r := r - FullTurn;
      k := k + 1;
    }
    if angle > FullTurn {
      DivModUnique(angle - 1, FullTurn, k, r - 1);
    }
  }

  /** `ortho_volume`: the bounds of the orthographic projection. */
  datatype ViewVolume = ViewVolume(left: real, right: real, bottom: real, top: real, near: real, far: real)

  const InitialVolume := ViewVolume(-0.15, 0.15, 0.15, -0.15, -40.0, 15.0)

  /** `zoom(delta)`: left, top and near move down by `delta`, right, bottom
      and far move up by it. */
  function Zoomed(v: ViewVolume, delta: real): (w: ViewVolume)
    ensures w.right - w.left == v.right - v.left + 2.0 * delta
    ensures w.far - w.near == v.far - v.near + 2.0 * delta
    ensures w.bottom - w.top == v.bottom - v.top + 2.0 * delta
  {
    ViewVolume(v.left - delta, v.right + delta, v.bottom + delta, v.top - delta, v.near - delta, v.far + delta)
  }

  /** Zooming back by the same amount restores the volume, and two zooms
      add up. */
  lemma ZoomInverse(v: ViewVolume, d: real, e: real)
    ensures Zoomed(Zoomed(v, d), -d) == v
    ensures Zoomed(Zoomed(v, d), e) == Zoomed(v, d + e)
  {
  }

  /** `glscene::item`: a run of `nLists` display lists starting at
      `listId`. */
  datatype Item = Item(listId: nat, nLists: nat)

  datatype Color = Color(r: int, g: int, b: int)

  class Scene {
    var xRot: int
    var yRot: int
    var zRot: int
    var view: ViewVolume
    var items: seq<Item>
    var redraws: nat

    constructor()
      ensures xRot == 16 * 180 && yRot == 0 && zRot == 0
      ensures view == InitialVolume && items == [] && redraws == 0
    {
      xRot, yRot, zRot := 16 * 180, 0, 0;
      view := InitialVolume;
      items := [];
      redraws := 0;
    }

    /** `setXRotation`: store the normalised angle, repainting only when it
        changes. */
    method SetXRotation(angle: int)
      modifies this
      ensures xRot == NormalAngle(angle)
      ensures redraws == old(redraws) + (if NormalAngle(angle) != old(xRot) then 1 else 0)
      ensures yRot == old(yRot) && zRot == old(zRot) && view == old(view) && items == old(items)
    {
      var a := NormalizeAngle(angle);
      if a != xRot {
        xRot := a;
        redraws := redraws + 1;
      }
    }

    method SetYRotation(angle: int)
      modifies this
      ensures yRot == NormalAngle(angle)
      ensures redraws == old(redraws) + (if NormalAngle(angle) != old(yRot) then 1 else 0)
      ensures xRot == old(xRot) && zRot == old(zRot) && view == old(view) && items == old(items)
    {
      var a := NormalizeAngle(angle);
      if a != yRot {
        yRot := a;
        redraws := redraws + 1;
      }
    }

    method SetZRotation(angle: int)
      modifies this
      ensures zRot == NormalAngle(angle)
      ensures redraws == old(redraws) + (if NormalAngle(angle) != old(zRot) then 1 else 0)
      ensures xRot == old(xRot) && yRot == old(yRot) && view == old(view) && items == old(items)
    {
      var a := NormalizeAngle(angle);
      if a != zRot {
        zRot := a;
        redraws := redraws + 1;
      }
    }

    method Zoom(delta: real)
      modifies this
      ensures view == Zoomed(old(view), delta)
      ensures redraws == old(redraws) + 1
      ensures xRot == old(xRot) && yRot == old(yRot) && zRot == old(zRot) && items == old(items)
    {
      view := Zoomed(view, delta);
      redraws := redraws + 1;
    }

    /** The uncoloured `add_point_set`: the new item's index when it joins
        the scene, the display list's name otherwise. */
    method AddPointSet(pts: seq<Math3D.Vec3>, addToScene: bool, list: nat) returns (id: nat)
      modifies this
      ensures addToScene ==> items == old(items) + [Item(list, 1)] && id == |old(items)|
      ensures !addToScene ==> items == old(items) && id == list
      ensures xRot == old(xRot) && yRot == old(yRot) && zRot == old(zRot)
      ensures view == old(view) && redraws == old(redraws)
    {
      if addToScene {
        items := items + [Item(list, 1)];
        return |items| - 1;
      }
      return list;
    }

    /** The coloured `add_point_set`: as the uncoloured one, but rejects
        point and colour vectors of different lengths or empty ones with
        `invalid_argument`, before touching the scene. */
    method AddColoredPointSet(pts: seq<Math3D.Vec3>, colors: seq<Color>, addToScene: bool, list: nat)
      returns (id: Result<nat>)
      modifies this
      ensures id.Fail? <==> |pts| != |colors| || |pts| == 0 || |colors| == 0
      ensures id.Fail? ==> id.error == InvalidArgument && items == old(items)
      ensures id.Ok? && addToScene ==> items == old(items) + [Item(list, 1)] && id.value == |old(items)|
      ensures id.Ok? && !addToScene ==> items == old(items) && id.value == list
      ensures xRot == old(xRot) && yRot == old(yRot) && zRot == old(zRot)
      ensures view == old(view) && redraws == old(redraws)
    {
      if |pts| != |colors| || |pts| == 0 || |colors| == 0 {
        return Fail(InvalidArgument);
      }
      if addToScene {
        items := items + [Item(list, 1)];
        return Ok(|items| - 1);
      }
      return Ok(list);
    }
  }
}
