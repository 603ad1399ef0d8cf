/** The legacy-format VTK export of `stereoview`: a scene of coloured
    points and triangles (`vtk_scene`), written as one `POINTS` block
    holding the points and then three corners per triangle, a `VERTICES`
    block with one cell per point, a `POLYGONS` block with one cell per
    triangle and a `POINT_DATA` colour block; and `save_as_vtk`, which
    adds to the points six triangles drawing each bundler camera. */
module Vtk {
  import opened Wrappers
  import opened Arith
  import opened Math3D
  import StereoView

  /** `unsigned char`. */
  type Byte = x: int | 0 <= x < 256

  /** `color_point`: a point and its colour. */
  datatype ColorPoint = ColorPoint(point: Vec3, r: Byte, g: Byte, b: Byte)

  /** `vtk_scene::triangle_idx`: the three corners of a triangle. */
  datatype Triangle = Triangle(p0: Vec3, p1: Vec3, p2: Vec3)

  /** A colour line `r g b`. */
  datatype Rgb = Rgb(r: Byte, g: Byte, b: Byte)

  /** A cell block: the header `NAME count size` and its lines, a line
      `m i1 ... im` being held as its ids `i1 ... im`. */
  datatype CellBlock = CellBlock(count: nat, size: nat, cells: seq<seq<nat>>)

  /** What `vtk_scene::save_as_vtk` writes after the fixed preamble: the
      `POINTS` count and coordinates, the `VERTICES` and `POLYGONS` blocks
      (each left out when it would be empty), the `POINT_DATA` count and
      the colours. */
  datatype VtkFile = VtkFile(pointCount: nat, coords: seq<Vec3>,
                             vertices: Option<CellBlock>, polygons: Option<CellBlock>,
                             dataCount: nat, colors: seq<Rgb>)

  /** The range of `uint32_t`, the type of the writer's counters. */
  const U32: nat := 0x1_0000_0000

  /** A `uint32_t` result. */
  function Wrap(x: nat): (y: nat)
    ensures y < U32 && (x < U32 ==> y == x)
  {
    x % U32
  }

  lemma WrapAdd(x: nat, c: nat)
    ensures Wrap(Wrap(x) + c) == Wrap(x + c)
  {
    var q := x / U32;
    assert x == q * U32 + Wrap(x);
    assert x + c == q * U32 + (Wrap(x) + c);
    DivModUnique(x + c, U32, q + (Wrap(x) + c) / U32, Wrap(Wrap(x) + c));
  }

  /** Corner `j` of a triangle. */
  function Corner(t: Triangle, j: nat): Vec3
    requires j < 3
  {
    if j == 0 then t.p0 else if j == 1 then t.p1 else t.p2
  }

  /** The coordinates of the points, in order. */
  function Positions(ps: seq<ColorPoint>): (vs: seq<Vec3>)
    ensures |vs| == |ps| && forall i :: 0 <= i < |ps| ==> vs[i] == ps[i].point
  {
    seq(|ps|, i requires 0 <= i < |ps| => ps[i].point)
  }

  /** The corners of the triangles, three per triangle, in order. */
  function Corners(ts: seq<Triangle>): (vs: seq<Vec3>)
    ensures |vs| == 3 * |ts|
  {
    if |ts| == 0 then [] else [ts[0].p0, ts[0].p1, ts[0].p2] + Corners(ts[1..])
  }

  /** Corner `j` of triangle `k` is coordinate `3k + j`. */
  lemma {:induction false} CornersAt(ts: seq<Triangle>, k: nat, j: nat)
    requires k < |ts| && j < 3
    ensures Corners(ts)[3 * k + j] == Corner(ts[k], j)
    decreases k
  {
    if k > 0 {
      CornersAt(ts[1..], k - 1, j);
      assert Corners(ts)[3 * k + j] == Corners(ts[1..])[3 * (k - 1) + j];
    }
  }

  /** The `VERTICES` cells: cell `k` is the point `k`. */
  function VertexCells(n: nat): (cs: seq<seq<nat>>)
    ensures |cs| == n
  {
    seq(n, k => [k])
  }

  /** The `POLYGONS` cells: cell `k` holds the three corners of triangle
      `k`, counted by a `uint32_t` from `n`. */
  function PolygonCells(n: nat, t: nat): (cs: seq<seq<nat>>)
    ensures |cs| == t
  {
    seq(t, k requires 0 <= k => [Wrap(n + 3 * k), Wrap(n + 3 * k + 1), Wrap(n + 3 * k + 2)])
  }

  /** The colour of every point, then white for the corners of every
      triangle. */
  function PointColors(ps: seq<ColorPoint>): (cs: seq<Rgb>)
    ensures |cs| == |ps|
  {
    seq(|ps|, i requires 0 <= i < |ps| => Rgb(ps[i].r, ps[i].g, ps[i].b))
  }

  function White(n: nat): (cs: seq<Rgb>)
    ensures |cs| == n
  {
    seq(n, i => Rgb(255, 255, 255))
  }

  /** The file `vtk_scene::save_as_vtk` writes for the points `ps` and the
      triangles `ts`. */
  function VtkOf(ps: seq<ColorPoint>, ts: seq<Triangle>): VtkFile
  {
    var n, t := |ps|, |ts|;
    VtkFile(n + 3 * t, Positions(ps) + Corners(ts),
            if n == 0 then None else Some(CellBlock(n, 2 * n, VertexCells(n))),
            if t == 0 then None else Some(CellBlock(t, t * 4, PolygonCells(n, t))),
            n + 3 * t, PointColors(ps) + White(3 * t))
  }

  /** The number of integers on the cell lines: each line starts with its
      own id count. */
  function CellsSize(cells: seq<seq<nat>>): nat
  {
    if |cells| == 0 then 0 else 1 + |cells[0]| + CellsSize(cells[1..])
  }

  lemma {:induction false} UniformCellsSize(cells: seq<seq<nat>>, m: nat)
    requires forall i :: 0 <= i < |cells| ==> |cells[i]| == m
    ensures CellsSize(cells) == |cells| * (1 + m)
  {
    if |cells| > 0 {
      UniformCellsSize(cells[1..], m);
      assert |cells| * (1 + m) == (|cells| - 1) * (1 + m) + (1 + m);
    }
  }

  /** A block declares its cell count and its integer count, and refers
      only to declared points. */
  predicate BlockOk(b: CellBlock, points: nat)
  {
    b.count == |b.cells| && b.size == CellsSize(b.cells)
    && forall k, j :: 0 <= k < |b.cells| && 0 <= j < |b.cells[k]| ==> b.cells[k][j] < points
  }

  /** A legacy VTK file whose counts agree with what follows them. */
  predicate WellFormed(f: VtkFile)
  {
    f.pointCount == |f.coords| && f.dataCount == f.pointCount && |f.colors| == f.dataCount
    && (f.vertices.Some? ==> BlockOk(f.vertices.value, f.pointCount))
    && (f.polygons.Some? ==> BlockOk(f.polygons.value, f.pointCount))
  }

  /** The written file's counts agree with its contents, as long as the
      `uint32_t` polygon counter does not wrap. */
  lemma VtkWellFormed(ps: seq<ColorPoint>, ts: seq<Triangle>)
    requires |ps| + 3 * |ts| <= U32
    ensures WellFormed(VtkOf(ps, ts))
  {
    if |ps| > 0 {
      VerticesOk(|ps|, 3 * |ts|);
    }
    if |ts| > 0 {
      PolygonsOk(|ps|, |ts|);
    }
  }

  lemma VerticesOk(n: nat, extra: nat)
    ensures BlockOk(CellBlock(n, 2 * n, VertexCells(n)), n + extra)
  {
    UniformCellsSize(VertexCells(n), 1);
  }

  lemma PolygonsOk(n: nat, t: nat)
    requires n + 3 * t <= U32
    ensures BlockOk(CellBlock(t, t * 4, PolygonCells(n, t)), n + 3 * t)
  {
    var cells := PolygonCells(n, t);
    UniformCellsSize(cells, 3);
    forall k, j | 0 <= k < t && 0 <= j < 3
      ensures cells[k][j] < n + 3 * t
    {
      assert cells[k][j] == Wrap(n + 3 * k + j);
    }
  }

  /** Vertex cell `k` is point `k`, and the three vertices of polygon `k`
      are the corners of triangle `k`. */
  lemma VtkGeometry(ps: seq<ColorPoint>, ts: seq<Triangle>)
    requires |ps| + 3 * |ts| <= U32
    ensures var f := VtkOf(ps, ts);
            (forall k :: 0 <= k < |ps| ==> f.coords[f.vertices.value.cells[k][0]] == ps[k].point)
            && (forall k, j :: 0 <= k < |ts| && 0 <= j < 3 ==>
                  f.coords[f.polygons.value.cells[k][j]] == Corner(ts[k], j))
  {
    var f := VtkOf(ps, ts);
    forall k, j | 0 <= k < |ts| && 0 <= j < 3
      ensures f.coords[f.polygons.value.cells[k][j]] == Corner(ts[k], j)
    {
      assert f.polygons.value.cells[k][j] == |ps| + (3 * k + j);
      CornersAt(ts, k, j);
    }
  }

  /** The coordinate lines of the points. */
  method WritePositions(ps: seq<ColorPoint>) returns (vs: seq<Vec3>)
    ensures vs == Positions(ps)
  {
    vs := [];
    for i := 0 to |ps|
      invariant vs == Positions(ps[..i])
    {
      assert Positions(ps[..i + 1]) == Positions(ps[..i]) + [ps[i].point];
      vs := vs + [ps[i].point];
    }
    assert ps[..|ps|] == ps;
  }

  /** The coordinate lines of the triangles' corners. */
  method WriteCorners(ts: seq<Triangle>) returns (vs: seq<Vec3>)
    ensures vs == Corners(ts)
  {
    vs := [];
    var rest := ts;
    while |rest| > 0
      invariant vs + Corners(rest) == Corners(ts)
    {
      var t := rest[0];
      assert vs + Corners(rest) == (vs + [t.p0, t.p1, t.p2]) + Corners(rest[1..]);
      vs := vs + [t.p0, t.p1, t.p2];
      rest := rest[1..];
    }
    assert vs + [] == vs;
  }

  /** The `VERTICES` lines `1 k`, counted by a `uint32_t`. */
  method WriteVertexCells(n: nat) returns (cells: seq<seq<nat>>)
    requires n < U32
    ensures cells == VertexCells(n)
  {
    cells := [];
    var k: nat := 0;
    while k < n
      invariant k <= n && cells == VertexCells(k)
    {
      assert VertexCells(k + 1) == VertexCells(k) + [[k]];
      cells := cells + [[k]];
      k := k + 1;
    }
  }

  /** The `POLYGONS` lines `3 tri tri+1 tri+2`, `tri` a `uint32_t` that
      starts at the point count and grows by three. */
  method WritePolygonCells(n: nat, t: nat) returns (cells: seq<seq<nat>>)
    requires t < U32
    ensures cells == PolygonCells(n, t)
  {
    cells := [];
    var tri := Wrap(n);
    var k: nat := 0;
    while k < t
      invariant k <= t && tri == Wrap(n + 3 * k) && cells == PolygonCells(n, k)
    {
      WrapAdd(n + 3 * k, 1);
      WrapAdd(n + 3 * k, 2);
      WrapAdd(n + 3 * k, 3);
      assert PolygonCells(n, k + 1) == PolygonCells(n, k) + [[tri, Wrap(tri + 1), Wrap(tri + 2)]];
      cells := cells + [[tri, Wrap(tri + 1), Wrap(tri + 2)]];
      k, tri := k + 1, Wrap(tri + 3);
    }
  }

  /** The colour lines: each point's colour, then three white lines per
      triangle. */
  method WriteColors(ps: seq<ColorPoint>, t: nat) returns (cs: seq<Rgb>)
    requires t < U32
    ensures cs == PointColors(ps) + White(3 * t)
  {
    cs := [];
    for i := 0 to |ps|
      invariant cs == PointColors(ps[..i])
    {
      assert PointColors(ps[..i + 1]) == PointColors(ps[..i]) + [Rgb(ps[i].r, ps[i].g, ps[i].b)];
      cs := cs + [Rgb(ps[i].r, ps[i].g, ps[i].b)];
    }
    assert ps[..|ps|] == ps;
    ghost var pc := cs;
    var k: nat := 0;
    while k < t
      invariant k <= t && cs == pc + White(3 * k)
    {
      assert White(3 * (k + 1)) == White(3 * k) + [Rgb(255, 255, 255), Rgb(255, 255, 255), Rgb(255, 255, 255)];
      cs := cs + [Rgb(255, 255, 255), Rgb(255, 255, 255), Rgb(255, 255, 255)];
      k := k + 1;
    }
  }

  /** `vtk_scene`: the points and the triangles to export. */
  class VtkScene {
    var points: seq<ColorPoint>
    var triangles: seq<Triangle>

    constructor()
      ensures points == [] && triangles == []
    {
      points := [];
      triangles := [];
    }

    /** `add_points`: the points go after those already there. */
    method AddPoints(pts: seq<ColorPoint>)
      modifies this
      ensures points == old(points) + pts && triangles == old(triangles)
    {
      points := points + pts;
    }

    /** `add_triangle`: one more triangle at the end. */
    method AddTriangle(p0: Vec3, p1: Vec3, p2: Vec3)
      modifies this
      ensures triangles == old(triangles) + [Triangle(p0, p1, p2)] && points == old(points)
    {
      triangles := triangles + [Triangle(p0, p1, p2)];
    }

    /** `save_as_vtk`: the file for the scene, its `uint32_t` counters
        covering the points and the triangles. */
    method Save() returns (f: VtkFile)
      requires |points| < U32 && |triangles| < U32
      ensures f == VtkOf(points, triangles)
    {
      var n, t := |points|, |triangles|;
      var coords := WritePositions(points);
      var corners := WriteCorners(triangles);
      var vertices: Option<CellBlock> := None;
      if n > 0 {
        var cells := WriteVertexCells(n);
        vertices := Some(CellBlock(n, 2 * n, cells));
      }
      var polygons: Option<CellBlock> := None;
      if t > 0 {
        var cells := WritePolygonCells(n, t);
        polygons := Some(CellBlock(t, t * 4, cells));
      }
      var colors := WriteColors(points, t);
      f := VtkFile(n + 3 * t, coords + corners, vertices, polygons, n + 3 * t, colors);
    }
  }

  /** `bundler_camera`: the focal length, the radial distortion, the
      rotation (a 3-by-3 matrix, row by row) and the translation. */
  datatype BundlerCamera = BundlerCamera(id: nat, f: real, k1: real, k2: real, r: seq<real>, t: Vec3)

  /** A camera whose rotation holds 3-by-3 entries and whose focal length
      can divide. */
  predicate Drawable(cam: BundlerCamera)
  {
    |cam.r| == 9 && cam.f != 0.0
  }

  /** `correct_point3d_for_bundler`: bundler's camera looks down -z with
      y up, so y and z change sign. */
  function CorrectForBundler(p: Vec3): (q: Vec3)
    ensures q.x == p.x && q.y == -p.y && q.z == -p.z
  {
    Vec3(p.x, -p.y, -p.z)
  }

  lemma CorrectTwice(p: Vec3)
    ensures CorrectForBundler(CorrectForBundler(p)) == p
  {
  }

  /** A corner of the image plane at distance 1, in camera coordinates,
      moved into the world by the camera's rotation and translation. */
  function Placed(cam: BundlerCamera, x: real, y: real): Vec3
    requires Drawable(cam)
  {
    assert Offset(3, 2, 2) == 8;
    Add(RotatedBy(CorrectForBundler(Vec3(x, y, 1.0)), cam.r, 3), cam.t)
  }

  /** The six triangles drawing a camera for an image `w` by `h`: the
      image rectangle as two triangles, then the four faces of the
      pyramid from the camera centre to the rectangle. */
  function CameraTriangles(w: real, h: real, cam: BundlerCamera): (ts: seq<Triangle>)
    requires Drawable(cam)
    ensures |ts| == 6
    ensures ts[0].p1 == ts[1].p0 && ts[0].p2 == ts[1].p2
    ensures forall j :: 2 <= j < 6 ==> ts[j].p0 == cam.t
  {
    var cx, cy := w / 2.0, h / 2.0;
    var left, right := -cx / cam.f, (w - cx) / cam.f;
    var top, bottom := -cy / cam.f, (h - cy) / cam.f;
    var tl, tr := Placed(cam, left, top), Placed(cam, right, top);
    var bl, br := Placed(cam, left, bottom), Placed(cam, right, bottom);
    [Triangle(tl, tr, bl), Triangle(tr, br, bl),
     Triangle(cam.t, tl, tr), Triangle(cam.t, tl, bl), Triangle(cam.t, tr, br), Triangle(cam.t, bl, br)]
  }

  predicate AllDrawable(cams: seq<BundlerCamera>)
  {
    forall k :: 0 <= k < |cams| ==> Drawable(cams[k])
  }

  /** The triangles of the cameras, camera after camera. */
  function CamerasTriangles(w: real, h: real, cams: seq<BundlerCamera>): (ts: seq<Triangle>)
    requires AllDrawable(cams)
    ensures |ts| == 6 * |cams|
  {
    if |cams| == 0 then []
    else CamerasTriangles(w, h, cams[..|cams| - 1]) + CameraTriangles(w, h, cams[|cams| - 1])
  }

  /** Triangle `6k + j` is triangle `j` of camera `k`. */
  lemma {:induction false} CamerasTrianglesAt(w: real, h: real, cams: seq<BundlerCamera>, k: nat, j: nat)
    requires AllDrawable(cams) && k < |cams| && j < 6
    ensures CamerasTriangles(w, h, cams)[6 * k + j] == CameraTriangles(w, h, cams[k])[j]
    decreases |cams|
  {
    var init := cams[..|cams| - 1];
    if k < |cams| - 1 {
      assert init[k] == cams[k];
      CamerasTrianglesAt(w, h, init, k, j);
    }
  }

  /** One turn of the camera loop of `save_as_vtk`: the four corners of
      the image plane, placed in the world, and the six triangles. */
  method AddCamera(scene: VtkScene, w: real, h: real, cam: BundlerCamera)
    requires Drawable(cam)
    modifies scene
    ensures scene.triangles == old(scene.triangles) + CameraTriangles(w, h, cam)
    ensures scene.points == old(scene.points)
  {
    var cx, cy := w / 2.0, h / 2.0;
    var tl := Placed(cam, -cx / cam.f, -cy / cam.f);
    var tr := Placed(cam, (w - cx) / cam.f, -cy / cam.f);
    var bl := Placed(cam, -cx / cam.f, (h - cy) / cam.f);
    var br := Placed(cam, (w - cx) / cam.f, (h - cy) / cam.f);
    scene.AddTriangle(tl, tr, bl);
    scene.AddTriangle(tr, br, bl);
    scene.AddTriangle(cam.t, tl, tr);
    scene.AddTriangle(cam.t, tl, bl);
    scene.AddTriangle(cam.t, tr, br);
    scene.AddTriangle(cam.t, bl, br);
  }

  /** `stereoview::save_as_vtk`: the points, and six triangles per camera,
      for the viewer's image size. */
  method SaveAsVtk(v: StereoView.Viewer, points: seq<ColorPoint>, cameras: seq<BundlerCamera>) returns (f: VtkFile)
    requires AllDrawable(cameras)
    requires |points| < U32 && 6 * |cameras| < U32
    ensures f == VtkOf(points, CamerasTriangles(v.Width() as real, v.Height() as real, cameras))
  {
    var w, h := v.Width() as real, v.Height() as real;
    var scene := new VtkScene();
    scene.AddPoints(points);
    for k := 0 to |cameras|
      invariant scene.points == points
      invariant scene.triangles == CamerasTriangles(w, h, cameras[..k])
    {
      AddCamera(scene, w, h, cameras[k]);
      assert cameras[..k + 1][..k] == cameras[..k];
    }
    assert cameras[..|cameras|] == cameras;
    f := scene.Save();
  }

  /** The exported scene's counts agree with its contents: the points and
      eighteen corners per camera, six polygons per camera. */
  lemma SceneCounts(w: real, h: real, ps: seq<ColorPoint>, cams: seq<BundlerCamera>)
    requires AllDrawable(cams) && |ps| + 18 * |cams| <= U32
    ensures var f := VtkOf(ps, CamerasTriangles(w, h, cams));
            WellFormed(f) && f.pointCount == |ps| + 18 * |cams|
            && (f.polygons.Some? <==> |cams| > 0)
            && (f.polygons.Some? ==> |f.polygons.value.cells| == 6 * |cams|)
  {
    VtkWellFormed(ps, CamerasTriangles(w, h, cams));
  }

  /** The last four polygons of each camera meet at its centre. */
  lemma SceneCentres(w: real, h: real, ps: seq<ColorPoint>, cams: seq<BundlerCamera>)
    requires AllDrawable(cams) && |ps| + 18 * |cams| <= U32
    requires |cams| > 0
    ensures var f := VtkOf(ps, CamerasTriangles(w, h, cams));
            f.polygons.Some? && |f.polygons.value.cells| == 6 * |cams|
            && forall i :: 0 <= i < 6 * |cams| && i % 6 >= 2 ==>
                 |f.polygons.value.cells[i]| == 3 && f.polygons.value.cells[i][0] < |f.coords|
                 && f.coords[f.polygons.value.cells[i][0]] == cams[i / 6].t
  {
    var ts := CamerasTriangles(w, h, cams);
    var f := VtkOf(ps, ts);
    forall i | 0 <= i < 6 * |cams| && i % 6 >= 2
      ensures |f.polygons.value.cells[i]| == 3 && f.polygons.value.cells[i][0] < |f.coords|
              && f.coords[f.polygons.value.cells[i][0]] == cams[i / 6].t
    {
      var k, j := i / 6, i % 6;
      assert i == 6 * k + j;
      CamerasTrianglesAt(w, h, cams, k, j);
      PolygonCorner(ps, ts, i, 0);
    }
  }

  /** Corner `j` of polygon `k` names the coordinate of that corner. */
  lemma PolygonCorner(ps: seq<ColorPoint>, ts: seq<Triangle>, k: nat, j: nat)
    requires |ps| + 3 * |ts| <= U32 && k < |ts| && j < 3
    ensures var f := VtkOf(ps, ts);
            f.polygons.Some? && |f.polygons.value.cells| == |ts| && |f.polygons.value.cells[k]| == 3
            && f.polygons.value.cells[k][j] < |f.coords|
            && f.coords[f.polygons.value.cells[k][j]] == Corner(ts[k], j)
  {
    var f := VtkOf(ps, ts);
    assert f.polygons.value.cells[k][j] == |ps| + (3 * k + j);
    CornersAt(ts, k, j);
  }

  /** The exported scene holds the points and eighteen corners per camera,
      its counts agree with its contents, and each camera contributes six
      polygons, the last four meeting at its centre. */
  lemma SceneLayout(w: real, h: real, ps: seq<ColorPoint>, cams: seq<BundlerCamera>)
    requires AllDrawable(cams) && |ps| + 18 * |cams| <= U32
    ensures var f := VtkOf(ps, CamerasTriangles(w, h, cams));
            WellFormed(f) && f.pointCount == |ps| + 18 * |cams|
            && (f.polygons.Some? <==> |cams| > 0)
            && (f.polygons.Some? ==> |f.polygons.value.cells| == 6 * |cams|)
            && forall i :: 0 <= i < 6 * |cams| && i % 6 >= 2 ==>
                 f.coords[f.polygons.value.cells[i][0]] == cams[i / 6].t
  {
    SceneCounts(w, h, ps, cams);
    if |cams| > 0 {
      SceneCentres(w, h, ps, cams);
    }
  }
}
