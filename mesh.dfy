/** The triangle mesh of cvlab (src/stereoviewer/cvlab/cvlab/mesh.h,
    mesh.cpp): vertices that remember the triangles they belong to,
    triangles that index their vertices, the triangle cursor and iterator,
    the median-edge resolution estimate, normal flipping, the tessellation
    rule of range grids, and the settings of a spin image.  Distances
    (`cvlab::dist`, a square root) are a function parameter. */
module Mesh {
  import opened Wrappers
  import opened Math3D
  import Cloud3D
  import Arith

  /** `uint16_t`, the type of a vertex's triangle count. */
  const U16 := 0x1_0000

  /** `vertex_data`: the point with its normal, the triangle count and the
      indices of the triangles the vertex belongs to. */
  datatype Vertex = Vertex(p: Vec3, n: Vec3, nTris: nat, triIndices: seq<nat>)

  /** `triangle_data`. */
  datatype Triangle = Triangle(p0: nat, p1: nat, p2: nat, n: Vec3, centroid: Vec3)

  /** The triangle handed out by the cursor and the iterator. */
  datatype Face = Face(q0: Vec3, q1: Vec3, q2: Vec3, n: Vec3)

  /** Every corner of every triangle is a vertex. */
  predicate CornersIn(vs: seq<Vertex>, ts: seq<Triangle>)
  {
    forall k :: 0 <= k < |ts| ==> ts[k].p0 < |vs| && ts[k].p1 < |vs| && ts[k].p2 < |vs|
  }

  /** The corners and normal of triangle `k`, as the cursor and the
      iterator hand it out. */
  function FaceAt(vs: seq<Vertex>, ts: seq<Triangle>, k: nat): Face
    requires CornersIn(vs, ts) && k < |ts|
  {
    var t := ts[k];
    Face(vs[t.p0].p, vs[t.p1].p, vs[t.p2].p, t.n)
  }

  /** Triangle `k` lists `v` among its corners. */
  predicate HasCorner(t: Triangle, v: nat)
  {
    v == t.p0 || v == t.p1 || v == t.p2
  }

  /** The bookkeeping between vertices and triangles: every corner index
      is a vertex, every vertex lists exactly the triangles it is a corner
      of (a triangle using it twice is listed twice), and the 16-bit count
      follows the list. */
  ghost predicate Incidence(vs: seq<Vertex>, ts: seq<Triangle>)
  {
    CornersIn(vs, ts)
    && (forall k :: 0 <= k < |ts| ==>
          Listed(vs[ts[k].p0].triIndices, k) && Listed(vs[ts[k].p1].triIndices, k) && Listed(vs[ts[k].p2].triIndices, k))
    && (forall v, j :: 0 <= v < |vs| && 0 <= j < |vs[v].triIndices| ==>
          vs[v].triIndices[j] < |ts| && HasCorner(ts[vs[v].triIndices[j]], v))
    && CountsFollow(vs)
  }

  /** Each vertex's 16-bit triangle count is the length of its list,
      wrapped. */
  predicate CountsFollow(vs: seq<Vertex>)
  {
    forall v :: 0 <= v < |vs| ==> vs[v].nTris == |vs[v].triIndices| % U16
  }

  /** The vertices after one more corner reference to triangle `k`. */
  function AddIncidence(vs: seq<Vertex>, v: nat, k: nat): (ws: seq<Vertex>)
    requires v < |vs|
    ensures |ws| == |vs|
    ensures forall u :: 0 <= u < |vs| && u != v ==> ws[u] == vs[u]
    ensures ws[v].p == vs[v].p && ws[v].n == vs[v].n
    ensures ws[v].triIndices == vs[v].triIndices + [k]
    ensures ws[v].nTris == (vs[v].nTris + 1) % U16
  {
    vs[v := vs[v].(triIndices := vs[v].triIndices + [k], nTris := (vs[v].nTris + 1) % U16)]
  }

  /** The references a triangle makes to vertex `v`: one per corner that
      is `v`. */
  function References(t: Triangle, v: nat, k: nat): (r: seq<nat>)
    ensures |r| <= 3 && (|r| > 0 <==> HasCorner(t, v))
    ensures forall j :: 0 <= j < |r| ==> r[j] == k
  {
    (if v == t.p0 then [k] else []) + (if v == t.p1 then [k] else []) + (if v == t.p2 then [k] else [])
  }

  /** Triangle `k` registered at its three corners, in one step. */
  function Register(vs: seq<Vertex>, t: Triangle, k: nat): (ws: seq<Vertex>)
    ensures |ws| == |vs|
  {
    seq(|vs|, v requires 0 <= v < |vs| => Registered(vs[v], t, v, k))
  }

  /** Vertex `v` after triangle `k` is registered at its corners. */
  function Registered(x: Vertex, t: Triangle, v: nat, k: nat): Vertex
  {
    x.(triIndices := x.triIndices + References(t, v, k),
       nTris := if HasCorner(t, v) then (x.nTris + |References(t, v, k)|) % U16 else x.nTris)
  }

  /** One reference to triangle `k` added to a vertex when `hit`. */
  function Bump(x: Vertex, hit: bool, k: nat): Vertex
  {
    if hit then x.(triIndices := x.triIndices + [k], nTris := (x.nTris + 1) % U16) else x
  }

  /** Reducing modulo 2^16 before an addition changes nothing after it. */
  lemma WrapAdd(n: nat, m: nat)
    ensures (n % U16 + m) % U16 == (n + m) % U16
  {
    var q, r := n / U16, n % U16;
    var q2, r2 := (r + m) / U16, (r + m) % U16;
    assert n + m == (q + q2) * U16 + r2;
    Arith.DivModUnique(n + m, U16, q + q2, r2);
  }

  lemma WrapStep(n: nat, m: nat)
    ensures ((n + m) % U16 + 1) % U16 == (n + m + 1) % U16
  {
    WrapAdd(n + m, 1);
  }

  /** The three single registrations `add_triangle` performs amount to
      `Register`. */
  lemma RegisterInSteps(vs: seq<Vertex>, t: Triangle, k: nat)
    requires t.p0 < |vs| && t.p1 < |vs| && t.p2 < |vs|
    ensures AddIncidence(AddIncidence(AddIncidence(vs, t.p0, k), t.p1, k), t.p2, k) == Register(vs, t, k)
  {
    var ws := AddIncidence(AddIncidence(AddIncidence(vs, t.p0, k), t.p1, k), t.p2, k);
    var rs := Register(vs, t, k);
    forall v | 0 <= v < |vs| ensures ws[v] == rs[v] {
      BumpsRegister(vs[v], t, v, k);
    }
  }

  /** The three conditional bumps of one vertex amount to its
      registration. */
  lemma BumpsRegister(x: Vertex, t: Triangle, v: nat, k: nat)
    ensures Bump(Bump(Bump(x, v == t.p0, k), v == t.p1, k), v == t.p2, k) == Registered(x, t, v, k)
  {
    var b0, b1, b2 := v == t.p0, v == t.p1, v == t.p2;
    var y := Bump(Bump(Bump(x, b0, k), b1, k), b2, k);
    var c := (if b0 then 1 else 0) + (if b1 then 1 else 0) + (if b2 then 1 else 0);
    BumpsList(x, b0, b1, b2, k);
    BumpsCount(x, b0, b1, b2, k);
    assert |References(t, v, k)| == c;
  }

  lemma BumpsList(x: Vertex, b0: bool, b1: bool, b2: bool, k: nat)
    ensures Bump(Bump(Bump(x, b0, k), b1, k), b2, k).triIndices
            == x.triIndices + ((if b0 then [k] else []) + (if b1 then [k] else []) + (if b2 then [k] else []))
  {
    var e0: seq<nat> := if b0 then [k] else [];
    var e1: seq<nat> := if b1 then [k] else [];
    var e2: seq<nat> := if b2 then [k] else [];
    var l := x.triIndices;
    AppendAssoc(l + e0, e1, e2);
    AppendAssoc(l, e0, e1 + e2);
    AppendAssoc(e0, e1, e2);
  }

  lemma BumpsCount(x: Vertex, b0: bool, b1: bool, b2: bool, k: nat)
    ensures var c := (if b0 then 1 else 0) + (if b1 then 1 else 0) + (if b2 then 1 else 0);
      Bump(Bump(Bump(x, b0, k), b1, k), b2, k).nTris == if c == 0 then x.nTris else (x.nTris + c) % U16
  {
    var n := x.nTris;
    WrapStep(n, 0);
    WrapStep(n, 1);
    WrapStep(n, 2);
  }

  /** Registering a triangle leaves every position where it was. */
  lemma RegisterKeepsPositions(vs: seq<Vertex>, t: Triangle, k: nat)
    ensures Positions(Register(vs, t, k)) == Positions(vs)
  {
    SamePositions(Register(vs, t, k), vs);
  }

  /** Registering a new triangle whose corners are vertices keeps the
      bookkeeping. */
  lemma RegisterKeepsIncidence(vs: seq<Vertex>, ts: seq<Triangle>, t: Triangle)
    requires Incidence(vs, ts)
    requires t.p0 < |vs| && t.p1 < |vs| && t.p2 < |vs|
    ensures Incidence(Register(vs, t, |ts|), ts + [t])
  {
    var ws := Register(vs, t, |ts|);
    RegisterKeepsCounts(vs, ts, t);
    RegisterKeepsListed(vs, ts, t);
    RegisterListsNew(vs, ts, t);
  }

  /** Registering keeps every count equal to its wrapped list length. */
  lemma RegisterKeepsCounts(vs: seq<Vertex>, ts: seq<Triangle>, t: Triangle)
    requires CountsFollow(vs)
    ensures CountsFollow(Register(vs, t, |ts|))
  {
    var ws := Register(vs, t, |ts|);
    forall v | 0 <= v < |vs| ensures ws[v].nTris == |ws[v].triIndices| % U16 {
      var n := |vs[v].triIndices|;
      var refs := References(t, v, |ts|);
      assert ws[v].triIndices == vs[v].triIndices + refs;
      assert vs[v].nTris == n % U16;
      WrapAdd(n, |refs|);
    }
  }

  /** Every entry of a vertex's list, old or new, names a triangle with
      that vertex as a corner. */
  lemma RegisterKeepsListed(vs: seq<Vertex>, ts: seq<Triangle>, t: Triangle)
    requires Incidence(vs, ts)
    ensures var ws, ts' := Register(vs, t, |ts|), ts + [t];
      forall v, j :: 0 <= v < |ws| && 0 <= j < |ws[v].triIndices| ==>
        ws[v].triIndices[j] < |ts'| && HasCorner(ts'[ws[v].triIndices[j]], v)
  {
    var ws, ts' := Register(vs, t, |ts|), ts + [t];
    forall v, j | 0 <= v < |ws| && 0 <= j < |ws[v].triIndices|
      ensures ws[v].triIndices[j] < |ts'| && HasCorner(ts'[ws[v].triIndices[j]], v)
    {
      var old_ := vs[v].triIndices;
      var refs := References(t, v, |ts|);
      assert ws[v].triIndices == old_ + refs;
      if j < |old_| {
        assert ws[v].triIndices[j] == old_[j];
        assert ts'[old_[j]] == ts[old_[j]];
      } else {
        assert ws[v].triIndices[j] == refs[j - |old_|] == |ts|;
      }
    }
  }

  /** Every triangle, old or new, is listed at each of its corners. */
  lemma RegisterListsNew(vs: seq<Vertex>, ts: seq<Triangle>, t: Triangle)
    requires Incidence(vs, ts)
    requires t.p0 < |vs| && t.p1 < |vs| && t.p2 < |vs|
    ensures var ws, ts' := Register(vs, t, |ts|), ts + [t];
      (forall k :: 0 <= k < |ts'| ==> ts'[k].p0 < |ws| && ts'[k].p1 < |ws| && ts'[k].p2 < |ws|)
      && forall k :: 0 <= k < |ts'| ==>
           Listed(ws[ts'[k].p0].triIndices, k) && Listed(ws[ts'[k].p1].triIndices, k) && Listed(ws[ts'[k].p2].triIndices, k)
  {
    var ws, ts' := Register(vs, t, |ts|), ts + [t];
    forall k, v | 0 <= k < |ts'| && 0 <= v < |vs| && HasCorner(ts'[k], v)
      ensures Listed(ws[v].triIndices, k)
    {
      var refs := References(t, v, |ts|);
      assert ws[v].triIndices == vs[v].triIndices + refs;
      if k < |ts| {
        assert ts'[k] == ts[k];
        ListedAppend(vs[v].triIndices, refs, k);
      } else {
        assert ts'[k] == t;
        assert refs[|refs| - 1] == k;
      }
    }
  }

  /** `k` occurs in `s`, written as a recursion on the last entry. */
  predicate Listed(s: seq<nat>, k: nat)
  {
    |s| > 0 && (s[|s| - 1] == k || Listed(s[..|s| - 1], k))
  }

  lemma {:induction false} ListedIsMembership(s: seq<nat>, k: nat)
    ensures Listed(s, k) <==> k in s
  {
    if |s| > 0 {
      ListedIsMembership(s[..|s| - 1], k);
      assert s == s[..|s| - 1] + [s[|s| - 1]];
    }
  }

  lemma {:induction false} ListedAppend(s: seq<nat>, t: seq<nat>, k: nat)
    requires Listed(s, k)
    ensures Listed(s + t, k)
    decreases |t|
  {
    if |t| == 0 {
      assert s + t == s;
    } else {
      assert (s + t)[..|s + t| - 1] == s + t[..|t| - 1];
      ListedAppend(s, t[..|t| - 1], k);
    }
  }

  /** The triangle `add_triangle` builds: the centroid of its corners and
      the (unnormalised) cross-product normal. */
  function MakeTriangle(vs: seq<Vertex>, a: nat, b: nat, c: nat): (t: Triangle)
    requires a < |vs| && b < |vs| && c < |vs|
    ensures t.p0 == a && t.p1 == b && t.p2 == c
    ensures t.n == Cross(Sub(vs[b].p, vs[a].p), Sub(vs[c].p, vs[a].p))
  {
    Triangle(a, b, c, Cross(Sub(vs[b].p, vs[a].p), Sub(vs[c].p, vs[a].p)),
             DivBy(Add(Add(vs[a].p, vs[b].p), vs[c].p), 3.0))
  }

  /** The positions of a run of vertices. */
  function Positions(vs: seq<Vertex>): (ps: seq<Vec3>)
    ensures |ps| == |vs|
  {
    if |vs| == 0 then [] else Positions(vs[..|vs| - 1]) + [vs[|vs| - 1].p]
  }

  lemma {:induction false} PositionsAt(vs: seq<Vertex>, i: nat)
    requires i < |vs|
    ensures Positions(vs)[i] == vs[i].p
    decreases |vs|
  {
    if i < |vs| - 1 {
      PositionsAt(vs[..|vs| - 1], i);
    }
  }

  /** Vertices at the same positions have the same position list. */
  lemma SamePositions(vs: seq<Vertex>, ws: seq<Vertex>)
    requires |vs| == |ws| && forall i :: 0 <= i < |vs| ==> vs[i].p == ws[i].p
    ensures Positions(vs) == Positions(ws)
  {
    forall i | 0 <= i < |vs| ensures Positions(vs)[i] == Positions(ws)[i] {
      PositionsAt(vs, i);
      PositionsAt(ws, i);
    }
  }

  /** The three edge lengths of each triangle, in triangle order, as
      `get_resolution` lays them out: `|p0 p1|`, `|p2 p1|`, `|p0 p2|`. */
  function EdgeLengths(vs: seq<Vertex>, ts: seq<Triangle>, dist: (Vec3, Vec3) -> real): (ls: seq<real>)
    requires CornersIn(vs, ts)
    ensures |ls| == 3 * |ts|
  {
    if |ts| == 0 then []
    else
      var k := |ts| - 1;
      EdgeLengths(vs, ts[..k], dist)
      + [dist(vs[ts[k].p0].p, vs[ts[k].p1].p), dist(vs[ts[k].p2].p, vs[ts[k].p1].p), dist(vs[ts[k].p0].p, vs[ts[k].p2].p)]
  }

  /** Entries `3k`, `3k+1` and `3k+2` are the edges of triangle `k`. */
  lemma {:induction false} EdgeLengthsAt(vs: seq<Vertex>, ts: seq<Triangle>, dist: (Vec3, Vec3) -> real, k: nat)
    requires CornersIn(vs, ts)
    requires k < |ts|
    ensures var ls := EdgeLengths(vs, ts, dist);
      ls[3 * k] == dist(vs[ts[k].p0].p, vs[ts[k].p1].p)
      && ls[3 * k + 1] == dist(vs[ts[k].p2].p, vs[ts[k].p1].p)
      && ls[3 * k + 2] == dist(vs[ts[k].p0].p, vs[ts[k].p2].p)
    decreases |ts|
  {
    var n := |ts| - 1;
    if k < n {
      EdgeLengthsAt(vs, ts[..n], dist, k);
      assert ts[..n][k] == ts[k];
    }
  }

  predicate SortedReals(s: seq<real>)
  {
    forall i, j :: 0 <= i < j < |s| ==> s[i] <= s[j]
  }

  /** Insertion of one value before the first larger one. */
  function Insert(s: seq<real>, x: real): (r: seq<real>)
    ensures |r| == |s| + 1 && multiset(r) == multiset(s) + multiset{x}
  {
    if |s| == 0 then [x]
    else if x <= s[0] then [x] + s
    else
      var rest := Insert(s[1..], x);
      assert s == [s[0]] + s[1..];
      [s[0]] + rest
  }

  /** Inserting into a sorted run keeps it sorted. */
  lemma {:induction false} InsertSorted(s: seq<real>, x: real)
    requires SortedReals(s)
    ensures SortedReals(Insert(s, x))
  {
    if |s| > 0 && x > s[0] {
      var tail := s[1..];
      var rest := Insert(tail, x);
      InsertSorted(tail, x);
      InsertAbove(tail, x, s[0]);
      var r := Insert(s, x);
      assert r == [s[0]] + rest;
      forall i, j | 0 <= i < j < |r| ensures r[i] <= r[j] {
        assert r[j] == rest[j - 1];
        if i > 0 {
          assert r[i] == rest[i - 1];
        }
      }
    }
  }

  /** A lower bound of a run and of the inserted value bounds the result. */
  lemma {:induction false} InsertAbove(s: seq<real>, x: real, lo: real)
    requires forall i :: 0 <= i < |s| ==> lo <= s[i]
    requires lo <= x
    ensures forall i :: 0 <= i < |Insert(s, x)| ==> lo <= Insert(s, x)[i]
  {
    if |s| > 0 && x > s[0] {
      InsertAbove(s[1..], x, lo);
      assert Insert(s, x) == [s[0]] + Insert(s[1..], x);
    }
  }

  /** `std::sort` on the edge lengths: a sorted permutation. */
  function Sort(s: seq<real>): (r: seq<real>)
    ensures SortedReals(r) && multiset(r) == multiset(s) && |r| == |s|
  {
    if |s| == 0 then []
    else
      var prefix, last := s[..|s| - 1], s[|s| - 1];
      var sorted := Sort(prefix);
      assert multiset(s) == multiset(prefix) + multiset{last} by {
        assert s == prefix + [last];
      }
      InsertSorted(sorted, last);
      Insert(sorted, last)
  }

  /** The median of a sorted run: the middle value, or the mean of the two
      middle values for an even length. */
  function Median(s: seq<real>): (m: real)
    requires |s| > 0 && SortedReals(s)
    ensures s[0] <= m <= s[|s| - 1]
  {
    var n := |s|;
    if n % 2 == 0 then (s[n / 2] + s[n / 2 - 1]) / 2.0 else s[(n - 1) / 2]
  }

  /** The median selection at the end of `get_resolution`, on the sorted
      lengths and their count. */
  method MiddleValue(sorted: seq<real>, nedges: nat) returns (res: real)
    requires |sorted| == nedges > 0 && SortedReals(sorted)
    ensures res == Median(sorted)
  {
    if nedges % 2 == 0 {
      res := (sorted[nedges / 2] + sorted[nedges / 2 - 1]) / 2.0;
    } else {
      res := sorted[(nedges - 1) / 2];
    }
  }

  /** The median lies between two of the values it summarises. */
  lemma MedianBetweenValues(ls: seq<real>)
    requires |ls| > 0
    ensures exists i, j :: 0 <= i < |ls| && 0 <= j < |ls| && ls[i] <= Median(Sort(ls)) <= ls[j]
  {
    var s := Sort(ls);
    SortedEndsAreValues(ls);
    var i :| 0 <= i < |ls| && ls[i] == s[0];
    var j :| 0 <= j < |ls| && ls[j] == s[|s| - 1];
    var m := Median(s);
    assert ls[i] <= m <= ls[j];
  }

  /** The smallest and the largest sorted value occur in the input. */
  lemma SortedEndsAreValues(ls: seq<real>)
    requires |ls| > 0
    ensures Sort(ls)[0] in ls && Sort(ls)[|ls| - 1] in ls
  {
    var s := Sort(ls);
    assert s[0] in multiset(s) && s[|s| - 1] in multiset(s);
  }

  /** With non-negative lengths the resolution is non-negative. */
  lemma MedianNonNegative(ls: seq<real>)
    requires |ls| > 0 && forall i :: 0 <= i < |ls| ==> ls[i] >= 0.0
    ensures Median(Sort(ls)) >= 0.0
  {
    MedianBetweenValues(ls);
  }

  /** The positions of the vertices, their normals negated. */
  function FlippedVertices(vs: seq<Vertex>): (ws: seq<Vertex>)
    ensures |ws| == |vs|
    ensures forall i :: 0 <= i < |vs| ==> ws[i] == vs[i].(n := Scale(vs[i].n, -1.0))
  {
    seq(|vs|, i requires 0 <= i < |vs| => vs[i].(n := Scale(vs[i].n, -1.0)))
  }

  function FlippedTriangles(ts: seq<Triangle>): (us: seq<Triangle>)
    ensures |us| == |ts|
    ensures forall i :: 0 <= i < |ts| ==> us[i] == ts[i].(n := Scale(ts[i].n, -1.0))
  {
    seq(|ts|, i requires 0 <= i < |ts| => ts[i].(n := Scale(ts[i].n, -1.0)))
  }

  /** Flipping twice restores every normal. */
  lemma FlipTwice(vs: seq<Vertex>, ts: seq<Triangle>)
    ensures FlippedVertices(FlippedVertices(vs)) == vs
    ensures FlippedTriangles(FlippedTriangles(ts)) == ts
  {
    assert forall i :: 0 <= i < |vs| ==> FlippedVertices(FlippedVertices(vs))[i] == vs[i];
    assert forall i :: 0 <= i < |ts| ==> FlippedTriangles(FlippedTriangles(ts))[i] == ts[i];
  }

  /** Flipping keeps the incidence bookkeeping and each part of it. */
  lemma FlipKeepsIncidence(vs: seq<Vertex>, ts: seq<Triangle>)
    ensures CornersIn(vs, ts) ==> CornersIn(FlippedVertices(vs), FlippedTriangles(ts))
    ensures CountsFollow(vs) ==> CountsFollow(FlippedVertices(vs))
    ensures Incidence(vs, ts) ==> Incidence(FlippedVertices(vs), FlippedTriangles(ts))
  {
    var ws, us := FlippedVertices(vs), FlippedTriangles(ts);
    forall k | 0 <= k < |ts| ensures Corners(us[k]) == Corners(ts[k]) {
    }
    forall v | 0 <= v < |vs| ensures ws[v].triIndices == vs[v].triIndices && ws[v].nTris == vs[v].nTris {
    }
    if Incidence(vs, ts) {
      forall k | 0 <= k < |us|
        ensures Listed(ws[us[k].p0].triIndices, k) && Listed(ws[us[k].p1].triIndices, k) && Listed(ws[us[k].p2].triIndices, k)
      {
        assert Corners(us[k]) == Corners(ts[k]);
      }
      forall v, j | 0 <= v < |ws| && 0 <= j < |ws[v].triIndices|
        ensures ws[v].triIndices[j] < |us| && HasCorner(us[ws[v].triIndices[j]], v)
      {
        assert ws[v].triIndices[j] == vs[v].triIndices[j];
        assert Corners(us[vs[v].triIndices[j]]) == Corners(ts[vs[v].triIndices[j]]);
      }
    }
  }

  /** The loop of `get_resolution` that fills the vector of `3t` edge
      lengths. */
  method FillEdgeLengths(vs: seq<Vertex>, ts: seq<Triangle>, dist: (Vec3, Vec3) -> real) returns (lengths: seq<real>)
    requires CornersIn(vs, ts)
    ensures lengths == EdgeLengths(vs, ts, dist)
  {
    lengths := seq(3 * |ts|, _ => 0.0);
    var k := 0;
    while k < |ts|
      invariant 0 <= k <= |ts| && |lengths| == 3 * |ts|
      invariant lengths[..3 * k] == EdgeLengths(vs, ts[..k], dist)
    {
      var t := ts[k];
      ghost var before := lengths[..3 * k];
      lengths := lengths[3 * k := dist(vs[t.p0].p, vs[t.p1].p)];
      lengths := lengths[3 * k + 1 := dist(vs[t.p2].p, vs[t.p1].p)];
      lengths := lengths[3 * k + 2 := dist(vs[t.p0].p, vs[t.p2].p)];
      assert lengths[..3 * k + 3] == before + [lengths[3 * k], lengths[3 * k + 1], lengths[3 * k + 2]];
      assert ts[..k + 1][..k] == ts[..k];
      k := k + 1;
    }
    assert ts[..|ts|] == ts;
    assert lengths == lengths[..3 * |ts|];
  }

  class TriMesh {
    var vertices: seq<Vertex>
    var triangles: seq<Triangle>
    var curTriangle: nat

    ghost predicate Valid()
      reads this
    {
      curTriangle <= |triangles| && CornersIn(vertices, triangles) && CountsFollow(vertices)
    }

    constructor()
      ensures Valid() && Incidence(vertices, triangles)
      ensures vertices == [] && triangles == [] && curTriangle == 0
    {
      vertices, triangles, curTriangle := [], [], 0;
    }

    function NTris(): (n: nat)
      reads this
      ensures n == |triangles|
    {
      |triangles|
    }

    /** `put_vertices`: one fresh vertex per point, in order, with no
        triangles yet (the kd-tree it also builds is not part of this
        model). */
    method PutVertices(points: seq<Vec3>)
      modifies this
      ensures |vertices| == |points|
      ensures forall k :: 0 <= k < |points| ==> vertices[k] == Vertex(points[k], Origin, 0, [])
      ensures triangles == old(triangles) && curTriangle == old(curTriangle)
      ensures old(triangles) == [] && old(Valid()) ==> Valid()
      ensures old(triangles) == [] ==> Incidence(vertices, triangles)
    {
      var vs := new Vertex[|points|](_ => Vertex(Origin, Origin, 0, []));
      var k := 0;
      while k < |points|
        invariant 0 <= k <= |points|
        invariant forall i :: 0 <= i < k ==> vs[i] == Vertex(points[i], Origin, 0, [])
        modifies vs
      {
        vs[k] := Vertex(points[k], Origin, 0, []);
        k := k + 1;
      }
      vertices := vs[..];
      assert forall v :: 0 <= v < |vertices| ==> vertices[v].triIndices == [] && vertices[v].nTris == 0;
    }

    /** `add_triangle`: `out_of_range` (and no change) for a corner that is
        not a vertex; otherwise the triangle is appended and its index is
        registered at each of its three corners. */
    method AddTriangle(a: nat, b: nat, c: nat) returns (st: Status)
      requires Valid()
      modifies this
      ensures Valid()
      ensures st.Raised? <==> a >= |old(vertices)| || b >= |old(vertices)| || c >= |old(vertices)|
      ensures st.Raised? ==> st.error == OutOfRange && vertices == old(vertices) && triangles == old(triangles)
      ensures st == Done ==> triangles == old(triangles) + [MakeTriangle(old(vertices), a, b, c)]
      ensures st == Done ==> vertices == AddIncidence(AddIncidence(AddIncidence(old(vertices), a, |old(triangles)|), b, |old(triangles)|), c, |old(triangles)|)
      ensures curTriangle == old(curTriangle)
      ensures old(Incidence(vertices, triangles)) ==> Incidence(vertices, triangles)
    {
      if a >= |vertices| || b >= |vertices| || c >= |vertices| {
        return Raised(OutOfRange);
      }
      var t := MakeTriangle(vertices, a, b, c);
      if Incidence(vertices, triangles) {
        RegisterKeepsIncidence(vertices, triangles, t);
      }
      RegisterKeepsCounts(vertices, triangles, t);
      assert CornersIn(Register(vertices, t, |triangles|), triangles + [t]);
      RegisterInSteps(vertices, t, |triangles|);
      var k := |triangles|;
      triangles := triangles + [t];
      vertices := AddIncidence(vertices, a, k);
      vertices := AddIncidence(vertices, b, k);
      vertices := AddIncidence(vertices, c, k);
      st := Done;
    }

    /** `get_next_triangle`: nothing once the cursor reaches the triangle
        count, otherwise the triangle under the cursor, which moves on. */
    method GetNextTriangle() returns (tri: Option<Face>)
      requires Valid()
      modifies this
      ensures Valid() && vertices == old(vertices) && triangles == old(triangles)
      ensures tri.None? <==> old(curTriangle) == |triangles|
      ensures tri.None? ==> curTriangle == old(curTriangle)
      ensures tri.Some? ==> curTriangle == old(curTriangle) + 1 && tri.value == FaceAt(vertices, triangles, old(curTriangle))
    {
      if curTriangle == |triangles| {
        return None;
      }
      tri := Some(FaceAt(vertices, triangles, curTriangle));
      curTriangle := curTriangle + 1;
    }

    /** `first_triangle`: rewind the cursor. */
    method FirstTriangle()
      requires Valid()
      modifies this
      ensures Valid() && curTriangle == 0
      ensures vertices == old(vertices) && triangles == old(triangles)
    {
      curTriangle := 0;
    }

    /** Reading every triangle from a rewound cursor yields the triangles
        in order and then nothing. */
    method ReadAll() returns (faces: seq<Face>)
      requires Valid()
      modifies this
      ensures Valid() && vertices == old(vertices) && triangles == old(triangles)
      ensures |faces| == |triangles| && curTriangle == |triangles|
      ensures forall k :: 0 <= k < |faces| ==> faces[k] == FaceAt(vertices, triangles, k)
    {
      FirstTriangle();
      faces := [];
      var f := GetNextTriangle();
      while f.Some?
        invariant Valid() && vertices == old(vertices) && triangles == old(triangles)
        invariant f.Some? ==> |faces| + 1 == curTriangle && f.value == FaceAt(vertices, triangles, |faces|)
        invariant f.None? ==> |faces| == curTriangle == |triangles|
        invariant forall k :: 0 <= k < |faces| ==> faces[k] == FaceAt(vertices, triangles, k)
        decreases |triangles| - |faces|
      {
        faces := faces + [f.value];
        f := GetNextTriangle();
      }
    }

    /** `get_resolution`: 0 without triangles, otherwise the median of the
        `3t` edge lengths. */
    method GetResolution(dist: (Vec3, Vec3) -> real) returns (res: real)
      requires Valid()
      ensures |triangles| == 0 ==> res == 0.0
      ensures |triangles| > 0 ==> res == Median(Sort(EdgeLengths(vertices, triangles, dist)))
    {
      var ntris := |triangles|;
      if ntris == 0 {
        return 0.0;
      }
      var nedges := ntris * 3;
      var lengths := FillEdgeLengths(vertices, triangles, dist);
      var sorted := Sort(lengths);
      res := MiddleValue(sorted, nedges);
    }

    /** `get_barycenter`: `logic_error` without vertices, otherwise the mean
        of the vertex positions. */
    method GetBarycenter() returns (r: Result<Vec3>)
      ensures |vertices| == 0 ==> r == Fail(LogicError)
      ensures |vertices| > 0 ==> r == Ok(DivBy(Cloud3D.Sum(Positions(vertices)), |vertices| as real))
    {
      if |vertices| == 0 {
        return Fail(LogicError);
      }
      ghost var ps := Positions(vertices);
      var centroid := Origin;
      var k := 0;
      while k < |vertices|
        invariant 0 <= k <= |vertices| && centroid == Cloud3D.Sum(ps[..k])
      {
        assert ps[..k + 1][..k] == ps[..k];
        PositionsAt(vertices, k);
        centroid := Add(centroid, vertices[k].p);
        k := k + 1;
      }
      assert ps[..|vertices|] == ps;
      return Ok(DivBy(centroid, |vertices| as real));
    }

    /** `flip_normals`: every vertex normal and then every triangle normal
        multiplied by -1. */
    method FlipNormals()
      requires Valid()
      modifies this
      ensures Valid()
      ensures vertices == FlippedVertices(old(vertices)) && triangles == FlippedTriangles(old(triangles))
      ensures curTriangle == old(curTriangle)
      ensures old(Incidence(vertices, triangles)) ==> Incidence(vertices, triangles)
    {
      FlipKeepsIncidence(vertices, triangles);
      var k := 0;
      var vs := vertices;
      while k < |vs|
        invariant 0 <= k <= |vs| && |vs| == |old(vertices)|
        invariant forall i :: 0 <= i < |vs| ==> vs[i] == if i < k then FlippedVertices(old(vertices))[i] else old(vertices)[i]
      {
        vs := vs[k := vs[k].(n := Scale(vs[k].n, -1.0))];
        k := k + 1;
      }
      var ts := triangles;
      k := 0;
      while k < |ts|
        invariant 0 <= k <= |ts| && |ts| == |old(triangles)|
        invariant forall i :: 0 <= i < |ts| ==> ts[i] == if i < k then FlippedTriangles(old(triangles))[i] else old(triangles)[i]
      {
        ts := ts[k := ts[k].(n := Scale(ts[k].n, -1.0))];
        k := k + 1;
      }
      vertices, triangles := vs, ts;
    }

    /** `begin_by_triangle`. */
    method BeginByTriangle() returns (it: TriIterator)
      ensures fresh(it) && it.container == this && it.idx == 0
    {
      it := new TriIterator(this);
    }

    /** `end_by_triangle`: an iterator brought to the triangle count. */
    method EndByTriangle() returns (it: TriIterator)
      ensures fresh(it) && it.container == this && it.idx == |triangles|
    {
      it := new TriIterator(this);
      it.Last();
    }
  }

  /** `mesh_iterator`: a mesh and a triangle index. */
  class TriIterator {
    const container: TriMesh
    var idx: nat

    constructor(c: TriMesh)
      ensures container == c && idx == 0
    {
      container := c;
      idx := 0;
    }

    /** Prefix `++`: `out_of_range` when already at the end, otherwise one
        step. */
    method Next() returns (st: Status)
      modifies this
      ensures old(idx) + 1 > |container.triangles| ==> st == Raised(OutOfRange) && idx == old(idx)
      ensures old(idx) + 1 <= |container.triangles| ==> st == Done && idx == old(idx) + 1
    {
      if idx + 1 > |container.triangles| {
        return Raised(OutOfRange);
      }
      idx := idx + 1;
      st := Done;
    }

    /** `operator==`: the same mesh and the same index. */
    predicate Equals(o: TriIterator)
      reads this, o
    {
      container == o.container && idx == o.idx
    }

    /** `last`: one past the last triangle. */
    method Last()
      modifies this
      ensures idx == |container.triangles|
    {
      idx := |container.triangles|;
    }
  }

  /** The two ends of the by-triangle range meet exactly for a mesh with no
      triangles, and stepping from the beginning reaches the end after one
      step per triangle. */
  method BeginMeetsEnd(m: TriMesh) returns (same: bool, steps: nat)
    ensures same <==> |m.triangles| == 0
    ensures steps == |m.triangles|
  {
    var b := m.BeginByTriangle();
    var e := m.EndByTriangle();
    same := b.Equals(e);
    steps := 0;
    while !b.Equals(e)
      invariant b.container == m && e.container == m && e.idx == |m.triangles|
      invariant b.idx == steps <= |m.triangles|
      invariant fresh(b) && fresh(e) && b != e
      decreases |m.triangles| - steps
    {
      var _ := b.Next();
      steps := steps + 1;
    }
  }

  /** The larger of three lengths. */
  function Max3(a: real, b: real, c: real): (m: real)
    ensures m >= a && m >= b && m >= c
    ensures m == a || m == b || m == c
  {
    if a >= b && a >= c then a else if b >= c then b else c
  }

  /** The cascaded comparison the tessellation uses picks the longest of
      three edges. */
  function LongestEdge(d01: real, d03: real, d13: real): (m: real)
    ensures m == Max3(d01, d03, d13)
  {
    if d01 > d13 then (if d01 > d03 then d01 else d03)
    else (if d13 > d03 then d13 else d03)
  }

  /** The grid value marking a missing range sample. */
  const InvalidVertexIndex := -1

  /** A range grid: `nRows` rows of `nCols` vertex indices or
      `InvalidVertexIndex`, each index naming one of `nv` vertices. */
  predicate GridOk(grid: seq<seq<int>>, nCols: nat, nv: nat)
  {
    forall r :: 0 <= r < |grid| ==>
      |grid[r]| == nCols && forall c :: 0 <= c < nCols ==> grid[r][c] == InvalidVertexIndex || 0 <= grid[r][c] < nv
  }

  /** `sqrt(sd) <= maxEdge` for a squared length `sd`: the edge limit is
      compared on squares, which a square root, being monotone, leaves
      unchanged. */
  predicate WithinEdge(sd: real, maxEdge: real)
  {
    maxEdge >= 0.0 && sd <= Sq(maxEdge)
  }

  /** The triangle `(a, b, d)` when all three samples exist and none of
      the edges `ab`, `ad`, `bd` is longer than `maxEdge`. */
  function Candidate(ps: seq<Vec3>, a: int, b: int, d: int, maxEdge: real): (tri: seq<(nat, nat, nat)>)
    requires -1 <= a < |ps| && -1 <= b < |ps| && -1 <= d < |ps|
    ensures |tri| <= 1
  {
    if a != InvalidVertexIndex && b != InvalidVertexIndex && d != InvalidVertexIndex
       && WithinEdge(LongestEdge(SquaredDist(ps[a], ps[b]), SquaredDist(ps[a], ps[d]), SquaredDist(ps[b], ps[d])), maxEdge)
    then [(a, b, d)] else []
  }

  /** A candidate is kept exactly when its three samples exist and each of
      its three edges is at most `maxEdge` long. */
  lemma CandidateKept(ps: seq<Vec3>, a: int, b: int, d: int, maxEdge: real)
    requires -1 <= a < |ps| && -1 <= b < |ps| && -1 <= d < |ps|
    ensures var tri := Candidate(ps, a, b, d, maxEdge);
      |tri| == 1 <==>
        a != InvalidVertexIndex && b != InvalidVertexIndex && d != InvalidVertexIndex && maxEdge >= 0.0
        && SquaredDist(ps[a], ps[b]) <= Sq(maxEdge) && SquaredDist(ps[a], ps[d]) <= Sq(maxEdge)
        && SquaredDist(ps[b], ps[d]) <= Sq(maxEdge)
    ensures var tri := Candidate(ps, a, b, d, maxEdge);
      |tri| == 1 ==> tri[0] == (a, b, d)
  {
  }

  /** The triangles of the grid cell with top-left corner `(r, c)`: with
      corners `p0 = (r, c)`, `p1 = (r, c+1)`, `p2 = (r+1, c+1)`,
      `p3 = (r+1, c)`, the candidates `(p0, p1, p3)` and then
      `(p1, p2, p3)`. */
  function CellTriangles(ps: seq<Vec3>, grid: seq<seq<int>>, nCols: nat, r: nat, c: nat,
                         maxEdge: real): (tris: seq<(nat, nat, nat)>)
    requires GridOk(grid, nCols, |ps|) && r + 1 < |grid| && c + 1 < nCols
    ensures |tris| <= 2
  {
    Candidate(ps, grid[r][c], grid[r][c + 1], grid[r + 1][c], maxEdge)
    + Candidate(ps, grid[r][c + 1], grid[r + 1][c + 1], grid[r + 1][c], maxEdge)
  }

  function Corners(t: Triangle): (nat, nat, nat)
  {
    (t.p0, t.p1, t.p2)
  }

  lemma AppendAssoc<T>(a: seq<T>, b: seq<T>, c: seq<T>)
    ensures (a + b) + c == a + (b + c)
  {
  }

  /** The corner triples of a run of triangles. */
  function CornerList(ts: seq<Triangle>): (cs: seq<(nat, nat, nat)>)
    ensures |cs| == |ts|
  {
    if |ts| == 0 then [] else CornerList(ts[..|ts| - 1]) + [Corners(ts[|ts| - 1])]
  }

  lemma CornerListAppend(ts: seq<Triangle>, t: Triangle)
    ensures CornerList(ts + [t]) == CornerList(ts) + [Corners(t)]
  {
    assert (ts + [t])[..|ts|] == ts;
  }

  /** The tessellation loop of `load_range_from_ply`, row by row and
      column by column over every cell of the grid (which the loader has
      checked to have at least one row and one column). */
  method Tessellate(m: TriMesh, grid: seq<seq<int>>, nCols: nat, maxEdge: real)
      returns (ntris: nat)
    requires m.Valid() && |grid| >= 1 && nCols >= 1
    requires GridOk(grid, nCols, |m.vertices|)
    modifies m
    ensures m.Valid() && |m.vertices| == |old(m.vertices)|
    ensures Positions(m.vertices) == Positions(old(m.vertices))
    ensures ntris == |m.triangles| - |old(m.triangles)|
    ensures CornerList(m.triangles) == CornerList(old(m.triangles)) + GridTriangles(Positions(old(m.vertices)), grid, nCols, maxEdge, |grid| - 1)
  {
    ghost var ps := Positions(m.vertices);
    ntris := 0;
    var r := 0;
    assert CornerList(m.triangles) + GridTriangles(ps, grid, nCols, maxEdge, 0) == CornerList(m.triangles);
    while r < |grid| - 1
      invariant 0 <= r <= |grid| - 1
      invariant m.Valid() && Positions(m.vertices) == ps && |m.vertices| == |ps|
      invariant ntris == |m.triangles| - |old(m.triangles)|
      invariant CornerList(m.triangles) == CornerList(old(m.triangles)) + GridTriangles(ps, grid, nCols, maxEdge, r)
    {
      var added := TessellateRow(m, ps, grid, nCols, maxEdge, r);
      ntris := ntris + added;
      NextRow(CornerList(old(m.triangles)), ps, grid, nCols, maxEdge, r);
      r := r + 1;
    }
    assert ps == Positions(old(m.vertices)) && r == |grid| - 1;
    assert CornerList(m.triangles) == CornerList(old(m.triangles)) + GridTriangles(ps, grid, nCols, maxEdge, r);
  }

  /** One row of cells of the tessellation loop. */
  method TessellateRow(m: TriMesh, ghost ps: seq<Vec3>, grid: seq<seq<int>>, nCols: nat, maxEdge: real, r: nat)
      returns (added: nat)
    requires m.Valid() && Positions(m.vertices) == ps && r + 1 < |grid| && nCols >= 1
    requires GridOk(grid, nCols, |ps|)
    modifies m
    ensures m.Valid() && Positions(m.vertices) == ps
    ensures |m.triangles| == |old(m.triangles)| + added
    ensures CornerList(m.triangles) == CornerList(old(m.triangles)) + RowTriangles(ps, grid, nCols, maxEdge, r, nCols - 1)
  {
    added := 0;
    var c := 0;
    assert CornerList(m.triangles) + RowTriangles(ps, grid, nCols, maxEdge, r, 0) == CornerList(m.triangles);
    while c < nCols - 1
      invariant 0 <= c <= nCols - 1
      invariant m.Valid() && Positions(m.vertices) == ps && |m.vertices| == |ps|
      invariant |m.triangles| == |old(m.triangles)| + added
      invariant CornerList(m.triangles) == CornerList(old(m.triangles)) + RowTriangles(ps, grid, nCols, maxEdge, r, c)
    {
      var n := TessellateCell(m, ps, grid, nCols, maxEdge, r, c);
      added := added + n;
      NextCell(CornerList(old(m.triangles)), ps, grid, nCols, maxEdge, r, c);
      c := c + 1;
    }
    assert c == nCols - 1;
    assert CornerList(m.triangles) == CornerList(old(m.triangles)) + RowTriangles(ps, grid, nCols, maxEdge, r, c);
  }

  /** The triangles of cells `(r, 0 .. c-1)`. */
  function RowTriangles(ps: seq<Vec3>, grid: seq<seq<int>>, nCols: nat, maxEdge: real,
                        r: nat, c: nat): seq<(nat, nat, nat)>
    requires GridOk(grid, nCols, |ps|) && r + 1 < |grid| && c + 1 <= nCols
  {
    if c == 0 then [] else RowTriangles(ps, grid, nCols, maxEdge, r, c - 1) + CellTriangles(ps, grid, nCols, r, c - 1, maxEdge)
  }

  /** Extending the triangles of cells `(r, 0 .. c-1)` by those of cell
      `(r, c)`. */
  lemma NextCell(base: seq<(nat, nat, nat)>, ps: seq<Vec3>, grid: seq<seq<int>>, nCols: nat, maxEdge: real,
                 r: nat, c: nat)
    requires GridOk(grid, nCols, |ps|) && r + 1 < |grid| && c + 1 < nCols
    ensures base + RowTriangles(ps, grid, nCols, maxEdge, r, c + 1)
            == (base + RowTriangles(ps, grid, nCols, maxEdge, r, c)) + CellTriangles(ps, grid, nCols, r, c, maxEdge)
  {
    AppendAssoc(base, RowTriangles(ps, grid, nCols, maxEdge, r, c), CellTriangles(ps, grid, nCols, r, c, maxEdge));
  }

  /** Extending the triangles of rows `0 .. r-1` by those of row `r`. */
  lemma NextRow(base: seq<(nat, nat, nat)>, ps: seq<Vec3>, grid: seq<seq<int>>, nCols: nat, maxEdge: real, r: nat)
    requires GridOk(grid, nCols, |ps|) && r + 1 < |grid| && nCols >= 1
    ensures base + GridTriangles(ps, grid, nCols, maxEdge, r + 1)
            == (base + GridTriangles(ps, grid, nCols, maxEdge, r)) + RowTriangles(ps, grid, nCols, maxEdge, r, nCols - 1)
  {
    AppendAssoc(base, GridTriangles(ps, grid, nCols, maxEdge, r), RowTriangles(ps, grid, nCols, maxEdge, r, nCols - 1));
  }

  /** The triangles of rows `0 .. r-1` of cells. */
  function GridTriangles(ps: seq<Vec3>, grid: seq<seq<int>>, nCols: nat, maxEdge: real,
                         r: nat): seq<(nat, nat, nat)>
    requires GridOk(grid, nCols, |ps|) && r + 1 <= |grid| && nCols >= 1
  {
    if r == 0 then [] else GridTriangles(ps, grid, nCols, maxEdge, r - 1) + RowTriangles(ps, grid, nCols, maxEdge, r - 1, nCols - 1)
  }

  /** One cell of the tessellation loop. */
  method TessellateCell(m: TriMesh, ghost ps: seq<Vec3>, grid: seq<seq<int>>, nCols: nat, maxEdge: real, r: nat, c: nat)
      returns (added: nat)
    requires m.Valid() && Positions(m.vertices) == ps && r + 1 < |grid| && c + 1 < nCols
    requires GridOk(grid, nCols, |ps|)
    modifies m
    ensures m.Valid() && Positions(m.vertices) == ps
    ensures |m.triangles| == |old(m.triangles)| + added
    ensures CornerList(m.triangles) == CornerList(old(m.triangles)) + CellTriangles(ps, grid, nCols, r, c, maxEdge)
  {
    var p0, p1, p2, p3 := grid[r][c], grid[r][c + 1], grid[r + 1][c + 1], grid[r + 1][c];
    ghost var cl := CornerList(m.triangles);
    ghost var first := Candidate(ps, p0, p1, p3, maxEdge);
    ghost var second := Candidate(ps, p1, p2, p3, maxEdge);
    assert CellTriangles(ps, grid, nCols, r, c, maxEdge) == first + second;
    var n := AddCandidate(m, ps, p0, p1, p3, maxEdge);
    assert CornerList(m.triangles) == cl + first;
    var n' := AddCandidate(m, ps, p1, p2, p3, maxEdge);
    AppendAssoc(cl, first, second);
    added := n + n';
  }

  /** One candidate triangle of a cell: its longest edge measured on the
      mesh's vertices, and the triangle added when it is short enough. */
  method AddCandidate(m: TriMesh, ghost ps: seq<Vec3>, a: int, b: int, d: int, maxEdge: real)
      returns (added: nat)
    requires m.Valid() && Positions(m.vertices) == ps && -1 <= a < |ps| && -1 <= b < |ps| && -1 <= d < |ps|
    modifies m
    ensures m.Valid() && Positions(m.vertices) == ps
    ensures |m.triangles| == |old(m.triangles)| + added
    ensures CornerList(m.triangles) == CornerList(old(m.triangles)) + Candidate(ps, a, b, d, maxEdge)
  {
    added := 0;
    if a != InvalidVertexIndex && b != InvalidVertexIndex && d != InvalidVertexIndex {
      PositionsAt(m.vertices, a);
      PositionsAt(m.vertices, b);
      PositionsAt(m.vertices, d);
      var maxDist := LongestEdge(SquaredDist(m.vertices[a].p, m.vertices[b].p), SquaredDist(m.vertices[a].p, m.vertices[d].p),
                                 SquaredDist(m.vertices[b].p, m.vertices[d].p));
      if WithinEdge(maxDist, maxEdge) {
        AddKnownTriangle(m, a, b, d);
        added := 1;
      }
    }
  }

  /** `add_triangle` on corners known to be vertices. */
  method AddKnownTriangle(m: TriMesh, a: nat, b: nat, c: nat)
    requires m.Valid() && a < |m.vertices| && b < |m.vertices| && c < |m.vertices|
    modifies m
    ensures m.Valid() && Positions(m.vertices) == Positions(old(m.vertices))
    ensures CornerList(m.triangles) == CornerList(old(m.triangles)) + [(a, b, c)]
  {
    ghost var ts, vs := m.triangles, m.vertices;
    ghost var t := MakeTriangle(vs, a, b, c);
    var st := m.AddTriangle(a, b, c);
    assert m.triangles == ts + [t];
    CornerListAppend(ts, t);
    RegisterKeepsPositions(vs, t, |ts|);
    RegisterInSteps(vs, t, |ts|);
  }

  /** `M_PI`. */
  const MPi: real := 3.14159265358979323846

  /** The settings of a `spin_image`: bin size, width in bins, support
      angle (stored in radians) and the width-by-width accumulator. */
  class SpinImage {
    var binSize: real
    var imageWidth: nat
    var supportAngle: real
    var image: seq<real>

    /** The default constructor: everything zero, no image. */
    constructor()
      ensures binSize == 0.0 && imageWidth == 0 && supportAngle == 0.0 && image == []
    {
      binSize, imageWidth, supportAngle, image := 0.0, 0, 0.0, [];
    }

    method SetBinSize(b: real)
      modifies this
      ensures binSize == b && imageWidth == old(imageWidth) && supportAngle == old(supportAngle) && image == old(image)
    {
      binSize := b;
    }

    /** `set_support_angle`: degrees in, radians stored. */
    method SetSupportAngle(a: real)
      modifies this
      ensures supportAngle == MPi * a / 180.0
      ensures binSize == old(binSize) && imageWidth == old(imageWidth) && image == old(image)
    {
      supportAngle := MPi * a / 180.0;
    }

    /** `get_support_angle`: back in degrees. */
    function GetSupportAngle(): (a: real)
      reads this
      ensures a * MPi == supportAngle * 180.0
    {
      supportAngle * 180.0 / MPi
    }

    /** `set_image_width`: a fresh all-zero `w` by `w` accumulator. */
    method SetImageWidth(w: nat)
      modifies this
      ensures imageWidth == w && |image| == w * w && forall i :: 0 <= i < |image| ==> image[i] == 0.0
      ensures binSize == old(binSize) && supportAngle == old(supportAngle)
    {
      imageWidth := w;
      image := seq(w * w, _ => 0.0);
    }

    /** `get_support_distance`: the span of the image in space. */
    function GetSupportDistance(): (d: real)
      reads this
      ensures imageWidth == 0 ==> d == 0.0
      ensures binSize >= 0.0 ==> d >= 0.0
    {
      imageWidth as real * binSize
    }
  }

  /** Setting the support angle and reading it back gives the input. */
  method SupportAngleRoundTrip(s: SpinImage, degrees: real) returns (back: real)
    modifies s
    ensures back == degrees
  {
    s.SetSupportAngle(degrees);
    back := s.GetSupportAngle();
  }
}
