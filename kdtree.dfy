/** The 3-d tree of cvlab (src/stereoviewer/cvlab/cvlab/kdtree.h) over
    `mesh_point`s.  The nodes live in the tree's `nodes_pool` vector and
    point at each other; here the pool is a sequence and a pointer is the
    index of the node in the pool, `Null` (-1) standing for `NULL`. */
module KdTree {
  import opened Math3D

  const Null := -1

  /** The member `k`, the number of axes the levels cycle through. */
  const Dims := 3

  /** `mesh_point`: a point, the index of its vertex and the distance
      slot `neighbors` fills in. */
  datatype MeshPoint = MeshPoint(pos: Vec3, vertexIdx: nat, distance: real)

  /** `node3d`: the stored point, its splitting axis and its links. */
  datatype Node = Node(val: MeshPoint, axis: int, left: int, right: int, parent: int)

  /** The coordinate an axis selects; the `switch`es of `compare` and
      `getMedian` leave 0 for any other axis. */
  function Coord(p: Vec3, axis: int): real
  {
    if axis == 0 then p.x else if axis == 1 then p.y else if axis == 2 then p.z else 0.0
  }

  /** `compare`: the sign of the difference of the selected coordinates. */
  function Compare(axis: int, o1: MeshPoint, o2: MeshPoint): (c: int)
    ensures -1 <= c <= 1
    ensures c < 0 <==> Coord(o1.pos, axis) < Coord(o2.pos, axis)
    ensures c > 0 <==> Coord(o1.pos, axis) > Coord(o2.pos, axis)
  {
    var a, b := Coord(o1.pos, axis), Coord(o2.pos, axis);
    if a < b then -1 else if a > b then 1 else 0
  }

  /** Swapping the arguments of `compare` negates the result. */
  lemma CompareAntisymmetric(axis: int, o1: MeshPoint, o2: MeshPoint)
    ensures Compare(axis, o2, o1) == -Compare(axis, o1, o2)
  {
  }

  /** The child of node `t` the descent takes for point `p`: right when
      `compare` on the node's axis is at least 0, left otherwise. */
  function Side(pool: seq<Node>, t: nat, p: MeshPoint): int
    requires t < |pool|
  {
    if Compare(pool[t].axis, p, pool[t].val) >= 0 then pool[t].right else pool[t].left
  }

  /** The indices of the subtree under `n` (empty for `Null`). */
  ghost function Subtree(pool: seq<Node>, n: int): set<int>
    decreases |pool| - n
  {
    if !(0 <= n < |pool|) then {}
    else
      {n}
      + (if pool[n].left > n then Subtree(pool, pool[n].left) else {})
      + (if pool[n].right > n then Subtree(pool, pool[n].right) else {})
  }

  /** `c` is `Null` or a later node whose parent link names `i`. */
  predicate ChildOk(pool: seq<Node>, i: int, c: int)
  {
    c == Null || (0 <= i < c < |pool| && pool[c].parent == i)
  }

  /** The links of node `i`: each child is `Null` or a later node pointing
      back at `i`, the two children differ, and the axis is one of the
      three. */
  predicate NodeOk(pool: seq<Node>, i: int)
    requires 0 <= i < |pool|
  {
    ChildOk(pool, i, pool[i].left) && ChildOk(pool, i, pool[i].right)
    && (pool[i].left != Null ==> pool[i].left != pool[i].right)
    && 0 <= pool[i].axis < Dims
  }

  /** A node other than the root is a child of an earlier parent, one
      level deeper on the axis cycle. */
  predicate ParentOk(pool: seq<Node>, i: int)
    requires 0 < i < |pool|
  {
    var q := pool[i].parent;
    0 <= q < i
    && (pool[q].left == i || pool[q].right == i)
    && pool[i].axis == (pool[q].axis + 1) % Dims
  }

  /** The links of the pool form a tree rooted at the first node, whose
      axis is 0. */
  ghost predicate Linked(pool: seq<Node>)
  {
    (forall i :: 0 <= i < |pool| ==> NodeOk(pool, i))
    && (|pool| > 0 ==> pool[0].parent == Null && pool[0].axis == 0)
    && (forall i :: 0 < i < |pool| ==> ParentOk(pool, i))
  }

  /** The order between node `i` and node `d`: when `d` is in the left
      subtree of `i` its coordinate on the axis of `i` is smaller, when it
      is in the right subtree equal or larger. */
  ghost predicate OrderedAt(pool: seq<Node>, i: int, d: int)
    requires 0 <= i < |pool| && 0 <= d < |pool|
  {
    (d in Subtree(pool, pool[i].left) ==> Coord(pool[d].val.pos, pool[i].axis) < Coord(pool[i].val.pos, pool[i].axis))
    && (d in Subtree(pool, pool[i].right) ==> Coord(pool[d].val.pos, pool[i].axis) >= Coord(pool[i].val.pos, pool[i].axis))
  }

  /** The search-tree order holds between every node and every node below
      it. */
  ghost predicate Ordered(pool: seq<Node>)
  {
    forall i, d :: 0 <= i < |pool| && 0 <= d < |pool| ==> OrderedAt(pool, i, d)
  }

  /** Every subtree lies at or after its top. */
  lemma {:induction false} SubAbove(pool: seq<Node>, n: int, d: int)
    requires d in Subtree(pool, n)
    ensures 0 <= n <= d < |pool|
    decreases |pool| - n
  {
    if d != n {
      if pool[n].left > n && d in Subtree(pool, pool[n].left) {
        SubAbove(pool, pool[n].left, d);
      } else {
        SubAbove(pool, pool[n].right, d);
      }
    }
  }

  /** A subtree is closed upwards: a member other than its top has its
      parent in it too. */
  lemma {:induction false} SubParent(pool: seq<Node>, n: int, d: int)
    requires Linked(pool) && d in Subtree(pool, n) && d != n
    ensures 0 < d < |pool| && pool[d].parent in Subtree(pool, n)
    decreases |pool| - n
  {
    var l, r := pool[n].left, pool[n].right;
    assert NodeOk(pool, n);
    if l > n && d in Subtree(pool, l) {
      SubAbove(pool, l, d);
      if d != l {
        SubParent(pool, l, d);
      }
    } else {
      SubAbove(pool, r, d);
      if d != r {
        SubParent(pool, r, d);
      }
    }
  }

  /** A subtree contains the subtrees of its members. */
  lemma {:induction false} SubNested(pool: seq<Node>, n: int, c: int, d: int)
    requires c in Subtree(pool, n) && d in Subtree(pool, c)
    ensures d in Subtree(pool, n)
    decreases |pool| - n
  {
    if c != n {
      var l, r := pool[n].left, pool[n].right;
      if l > n && c in Subtree(pool, l) {
        SubNested(pool, l, c, d);
      } else {
        SubNested(pool, r, c, d);
      }
    }
  }

  /** Every node is under the root. */
  lemma {:induction false} UnderRoot(pool: seq<Node>, d: int)
    requires Linked(pool) && 0 <= d < |pool|
    ensures d in Subtree(pool, 0)
    decreases d
  {
    if d > 0 {
      var q := pool[d].parent;
      assert ParentOk(pool, d);
      assert NodeOk(pool, q);
      UnderRoot(pool, q);
      assert d in Subtree(pool, q);
      SubNested(pool, 0, q, d);
    }
  }

  /** The two subtrees of a node share no member. */
  lemma {:induction false} SubtreesDisjoint(pool: seq<Node>, i: int, d: int)
    requires Linked(pool) && 0 <= i < |pool| && pool[i].left != Null && pool[i].right != Null
    ensures !(d in Subtree(pool, pool[i].left) && d in Subtree(pool, pool[i].right))
    decreases d
  {
    var l, r := pool[i].left, pool[i].right;
    assert NodeOk(pool, i);
    if d in Subtree(pool, l) && d in Subtree(pool, r) {
      if d == l || d == r {
        var o := if d == l then r else l;
        SubParent(pool, o, d);
        SubAbove(pool, o, i);
      } else {
        SubParent(pool, l, d);
        SubParent(pool, r, d);
        SubAbove(pool, l, d);
        assert ParentOk(pool, d);
        SubtreesDisjoint(pool, i, pool[d].parent);
      }
    }
  }

  /** The condition `p` must meet at node `i` to hang below node `t`:
      smaller on the node's axis when `t` is in the left subtree, equal or
      larger when `t` is in the right one. */
  ghost predicate PathAt(pool: seq<Node>, t: int, p: MeshPoint, i: int)
    requires 0 <= i < |pool|
  {
    (t in Subtree(pool, pool[i].left) ==> Coord(p.pos, pool[i].axis) < Coord(pool[i].val.pos, pool[i].axis))
    && (t in Subtree(pool, pool[i].right) ==> Coord(p.pos, pool[i].axis) >= Coord(pool[i].val.pos, pool[i].axis))
  }

  /** Point `p` may hang below node `t`: the condition holds at every node
      above `t`. */
  ghost predicate PathOk(pool: seq<Node>, t: int, p: MeshPoint)
  {
    forall i :: 0 <= i < |pool| ==> PathAt(pool, t, p, i)
  }

  /** The root is in no subtree but its own. */
  lemma PathRoot(pool: seq<Node>, p: MeshPoint)
    requires Linked(pool) && |pool| > 0
    ensures PathOk(pool, 0, p)
  {
    forall i | 0 <= i < |pool|
      ensures 0 !in Subtree(pool, pool[i].left) && 0 !in Subtree(pool, pool[i].right)
    {
      assert NodeOk(pool, i);
      if 0 in Subtree(pool, pool[i].left) {
        SubAbove(pool, pool[i].left, 0);
      }
      if 0 in Subtree(pool, pool[i].right) {
        SubAbove(pool, pool[i].right, 0);
      }
    }
  }

  /** One step of the descent keeps the condition at node `i`. */
  lemma PathStepAt(pool: seq<Node>, t: int, p: MeshPoint, i: int)
    requires Linked(pool) && 0 <= t < |pool| && 0 <= i < |pool| && NodeOk(pool, t)
    requires PathAt(pool, t, p, i) && Side(pool, t, p) != Null
    ensures PathAt(pool, Side(pool, t, p), p, i)
  {
    var c := Side(pool, t, p);
    assert pool[c].parent == t;
    if c in Subtree(pool, pool[i].left) {
      if c == pool[i].left {
        assert NodeOk(pool, i);
        assert i == t && c != pool[t].right;
      } else {
        SubParent(pool, pool[i].left, c);
      }
    }
    if c in Subtree(pool, pool[i].right) {
      if c == pool[i].right {
        assert NodeOk(pool, i);
        assert i == t && c != pool[t].left;
      } else {
        SubParent(pool, pool[i].right, c);
      }
    }
  }

  /** One step of the descent keeps the path condition. */
  lemma PathStep(pool: seq<Node>, t: int, p: MeshPoint)
    requires Linked(pool) && 0 <= t < |pool| && PathOk(pool, t, p) && Side(pool, t, p) != Null
    ensures PathOk(pool, Side(pool, t, p), p)
  {
    assert NodeOk(pool, t);
    forall i | 0 <= i < |pool|
      ensures PathAt(pool, Side(pool, t, p), p, i)
    {
      PathStepAt(pool, t, p, i);
    }
  }

  /** The pool after `add` has pushed `p` and linked it below `leaf` (or
      made it the root of an empty tree). */
  function Attach(pool: seq<Node>, p: MeshPoint, leaf: int): (pool': seq<Node>)
    requires |pool| == 0 || 0 <= leaf < |pool|
    ensures |pool'| == |pool| + 1 && pool'[|pool|].val == p
    ensures forall i :: 0 <= i < |pool| ==> pool'[i].val == pool[i].val
  {
    if |pool| == 0 then [Node(p, 0, Null, Null, Null)]
    else
      var n, l := |pool|, pool[leaf];
      var linked := if Compare(l.axis, p, l.val) >= 0 then l.(right := n) else l.(left := n);
      pool[leaf := linked] + [Node(p, (l.axis + 1) % Dims, Null, Null, leaf)]
  }

  /** Attaching adds the new node to exactly the subtrees that hold the
      leaf. */
  lemma {:induction false} AttachSub(pool: seq<Node>, p: MeshPoint, leaf: int, x: int)
    requires Linked(pool) && 0 <= leaf < |pool| && Side(pool, leaf, p) == Null
    requires 0 <= x < |pool|
    ensures Subtree(Attach(pool, p, leaf), x) == Subtree(pool, x) + (if leaf in Subtree(pool, x) then {|pool|} else {})
    decreases |pool| - x
  {
    var pool', n := Attach(pool, p, leaf), |pool|;
    assert Subtree(pool', n) == {n};
    var l, r := pool[x].left, pool[x].right;
    assert NodeOk(pool, x);
    if l != Null {
      AttachSub(pool, p, leaf, l);
    }
    if r != Null {
      AttachSub(pool, p, leaf, r);
    }
    if x == leaf {
      if l != Null && leaf in Subtree(pool, l) {
        SubAbove(pool, l, leaf);
      }
      if r != Null && leaf in Subtree(pool, r) {
        SubAbove(pool, r, leaf);
      }
    }
  }

  /** Attaching at a free child slot keeps the links a tree. */
  lemma AttachLinked(pool: seq<Node>, p: MeshPoint, leaf: int)
    requires Linked(pool)
    requires |pool| == 0 || (0 <= leaf < |pool| && Side(pool, leaf, p) == Null)
    ensures Linked(Attach(pool, p, leaf))
  {
    var pool', n := Attach(pool, p, leaf), |pool|;
    if n > 0 {
      forall i | 0 <= i < |pool'|
        ensures NodeOk(pool', i)
      {
        if i < n {
          assert NodeOk(pool, i);
          var l, r := pool[i].left, pool[i].right;
          assert l != Null ==> pool'[l].parent == pool[l].parent;
          assert r != Null ==> pool'[r].parent == pool[r].parent;
        }
      }
      forall i | 0 < i < |pool'|
        ensures ParentOk(pool', i)
      {
        if i < n {
          assert ParentOk(pool, i);
        }
      }
    }
  }

  /** Attaching at the end of a descent keeps the order between nodes `i`
      and `d`. */
  lemma AttachOrderedAt(pool: seq<Node>, p: MeshPoint, leaf: int, i: int, d: int)
    requires Linked(pool) && Ordered(pool)
    requires 0 <= leaf < |pool| && Side(pool, leaf, p) == Null && PathOk(pool, leaf, p)
    requires 0 <= i <= |pool| && 0 <= d <= |pool|
    ensures OrderedAt(Attach(pool, p, leaf), i, d)
  {
    var pool', n := Attach(pool, p, leaf), |pool|;
    assert Subtree(pool', n) == {n};
    assert Subtree(pool', Null) == {};
    if i < n {
      assert PathAt(pool, leaf, p, i) && NodeOk(pool, i);
      assert pool'[i].axis == pool[i].axis && pool'[i].val == pool[i].val;
      assert pool'[d].val == if d < n then pool[d].val else p;
      var l, r := pool[i].left, pool[i].right;
      if l != Null {
        AttachSub(pool, p, leaf, l);
      }
      if r != Null {
        AttachSub(pool, p, leaf, r);
      }
      if d < n {
        assert OrderedAt(pool, i, d);
      } else {
        if d in Subtree(pool, l) {
          SubAbove(pool, l, d);
        }
        if d in Subtree(pool, r) {
          SubAbove(pool, r, d);
        }
      }
      if i == leaf && d == n {
        if Compare(pool[i].axis, p, pool[i].val) >= 0 {
          assert pool'[i].left == l && pool'[i].right == n;
        } else {
          assert pool'[i].left == n && pool'[i].right == r;
        }
      }
    }
  }

  /** Attaching at the end of a descent keeps the search-tree order. */
  lemma AttachOrdered(pool: seq<Node>, p: MeshPoint, leaf: int)
    requires Linked(pool) && Ordered(pool)
    requires 0 <= leaf < |pool| && Side(pool, leaf, p) == Null && PathOk(pool, leaf, p)
    ensures Ordered(Attach(pool, p, leaf))
  {
    var pool' := Attach(pool, p, leaf);
    forall i, d | 0 <= i < |pool'| && 0 <= d < |pool'|
      ensures OrderedAt(pool', i, d)
    {
      AttachOrderedAt(pool, p, leaf, i, d);
    }
  }

  /** The positions stored in the pool. */
  ghost function Points(pool: seq<Node>): set<Vec3>
  {
    set j | 0 <= j < |pool| :: pool[j].val.pos
  }

  /** No position is stored twice: `add` refuses a point the tree
      `contains`. */
  ghost predicate Distinct(pool: seq<Node>)
  {
    forall i, j :: 0 <= i < j < |pool| ==> pool[i].val.pos != pool[j].val.pos
  }

  /** Attaching a point not yet stored adds exactly its position, and
      keeps the positions distinct. */
  lemma AttachPoints(pool: seq<Node>, p: MeshPoint, leaf: int)
    requires |pool| == 0 || 0 <= leaf < |pool|
    requires Distinct(pool) && p.pos !in Points(pool)
    ensures Points(Attach(pool, p, leaf)) == Points(pool) + {p.pos}
    ensures Distinct(Attach(pool, p, leaf))
  {
    var pool', n := Attach(pool, p, leaf), |pool|;
    forall q | q in Points(pool) ensures q in Points(pool') {
      var j :| 0 <= j < n && pool[j].val.pos == q;
      assert pool'[j].val.pos == q;
    }
    assert pool'[n].val.pos == p.pos;
    forall i, j | 0 <= i < j < |pool'| ensures pool'[i].val.pos != pool'[j].val.pos {
      if j == n {
        assert pool[i].val.pos in Points(pool);
      }
    }
  }

  /** Distinct positions number as many as the nodes. */
  lemma {:induction false} DistinctCount(pool: seq<Node>)
    requires Distinct(pool)
    ensures |Points(pool)| == |pool|
  {
    if |pool| > 0 {
      var front, n := pool[..|pool| - 1], |pool| - 1;
      DistinctCount(front);
      assert Points(pool) == Points(front) + {pool[n].val.pos} by {
        forall q | q in Points(pool) ensures q in Points(front) + {pool[n].val.pos} {
          var j :| 0 <= j < |pool| && pool[j].val.pos == q;
          if j < n {
            assert front[j].val.pos == q;
          }
        }
      }
      assert pool[n].val.pos !in Points(front);
    }
  }

  /** When `d` (holding `p`'s position) is below node `t` but is not `t`,
      it is below the child the descent of `get_node` takes. */
  lemma FindStep(pool: seq<Node>, t: int, p: MeshPoint, d: int)
    requires Linked(pool) && Ordered(pool) && 0 <= t < |pool| && pool[t].val.pos != p.pos
    requires 0 <= d < |pool| && pool[d].val.pos == p.pos && d in Subtree(pool, t)
    ensures d in Subtree(pool, Side(pool, t, p))
  {
    assert NodeOk(pool, t) && OrderedAt(pool, t, d);
  }

  /** The closed box test of `orthoSearch`. */
  predicate InBox(q: Vec3, lo: Vec3, hi: Vec3)
  {
    q.x >= lo.x && q.x <= hi.x && q.y >= lo.y && q.y <= hi.y && q.z >= lo.z && q.z <= hi.z
  }

  /** A point in the box lies between its bounds on every axis. */
  lemma InBoxCoord(q: Vec3, lo: Vec3, hi: Vec3, axis: int)
    requires InBox(q, lo, hi) && 0 <= axis < Dims
    ensures Coord(lo, axis) <= Coord(q, axis) <= Coord(hi, axis)
  {
  }

  /** `orthoSearch`: the nodes under `n` in the box, in pre-order, skipping
      the left subtree when the node's coordinate is at most the box's
      lower bound on its axis and the right subtree when it is above the
      upper bound. */
  function OrthoSearch(pool: seq<Node>, n: int, lo: Vec3, hi: Vec3): (r: seq<int>)
    requires Linked(pool) && (n == Null || 0 <= n < |pool|)
    ensures forall k :: 0 <= k < |r| ==> 0 <= r[k] < |pool|
    decreases if n == Null then 0 else |pool| - n + 1
  {
    if n == Null then []
    else
      assert NodeOk(pool, n);
      var nd := pool[n];
      var median, intervalMin, intervalMax := Coord(nd.val.pos, nd.axis), Coord(lo, nd.axis), Coord(hi, nd.axis);
      var here := if InBox(nd.val.pos, lo, hi) then [n] else [];
      if median > intervalMax then here + OrthoSearch(pool, nd.left, lo, hi)
      else if median <= intervalMin then here + OrthoSearch(pool, nd.right, lo, hi)
      else here + OrthoSearch(pool, nd.left, lo, hi) + OrthoSearch(pool, nd.right, lo, hi)
  }

  /** The pruning loses nothing: `orthoSearch` finds exactly the nodes of
      the subtree that lie in the box. */
  lemma {:induction false} OrthoExact(pool: seq<Node>, n: int, lo: Vec3, hi: Vec3, d: int)
    requires Linked(pool) && Ordered(pool) && (n == Null || 0 <= n < |pool|)
    ensures d in OrthoSearch(pool, n, lo, hi) <==> d in Subtree(pool, n) && 0 <= d < |pool| && InBox(pool[d].val.pos, lo, hi)
    decreases |pool| - n
  {
    if n != Null {
      assert NodeOk(pool, n);
      var nd := pool[n];
      if nd.left != Null {
        OrthoExact(pool, nd.left, lo, hi, d);
      }
      if nd.right != Null {
        OrthoExact(pool, nd.right, lo, hi, d);
      }
      if d in Subtree(pool, n) && 0 <= d < |pool| && InBox(pool[d].val.pos, lo, hi) && d != n {
        InBoxCoord(pool[d].val.pos, lo, hi, nd.axis);
        assert OrderedAt(pool, n, d);
      }
    }
  }

  /** The stored values at a run of node indices. */
  function ValuesAt(pool: seq<Node>, idx: seq<int>): (vs: seq<MeshPoint>)
    requires forall k :: 0 <= k < |idx| ==> 0 <= idx[k] < |pool|
    ensures |vs| == |idx|
    ensures forall k :: 0 <= k < |idx| ==> vs[k] == pool[idx[k]].val
  {
    if |idx| == 0 then [] else ValuesAt(pool, idx[..|idx| - 1]) + [pool[idx[|idx| - 1]].val]
  }

  /** The box around `mp` that `neighbors` searches. */
  function LowCorner(mp: Vec3, radius: real): Vec3
  {
    Vec3(mp.x - radius, mp.y - radius, mp.z - radius)
  }

  function HighCorner(mp: Vec3, radius: real): Vec3
  {
    Vec3(mp.x + radius, mp.y + radius, mp.z + radius)
  }

  /** A point is in the search box exactly when it is within `radius` of
      `mp` on every axis. */
  lemma BoxIsRadius(q: Vec3, mp: Vec3, radius: real)
    ensures InBox(q, LowCorner(mp, radius), HighCorner(mp, radius)) <==>
              (-radius <= q.x - mp.x <= radius && -radius <= q.y - mp.y <= radius && -radius <= q.z - mp.z <= radius)
  {
  }

  /** Each point with its `distance` slot set to the squared distance to
      `mp`. */
  function WithDistances(t: seq<MeshPoint>, mp: Vec3): (u: seq<MeshPoint>)
    ensures |u| == |t|
    ensures forall i :: 0 <= i < |t| ==> u[i] == t[i].(distance := SquaredDist(t[i].pos, mp))
  {
    if |t| == 0 then [] else WithDistances(t[..|t| - 1], mp) + [t[|t| - 1].(distance := SquaredDist(t[|t| - 1].pos, mp))]
  }

  /** Ordered by the `distance` slot, as `compare_by_distance` orders. */
  predicate ByDistance(s: seq<MeshPoint>)
  {
    forall i, j :: 0 <= i < j < |s| ==> s[i].distance <= s[j].distance
  }

  /** Insertion of one point before the first farther one. */
  function InsertByDistance(s: seq<MeshPoint>, x: MeshPoint): (r: seq<MeshPoint>)
    ensures |r| == |s| + 1 && multiset(r) == multiset(s) + multiset{x}
  {
    if |s| == 0 then [x]
    else if x.distance <= s[0].distance then [x] + s
    else
      var rest := InsertByDistance(s[1..], x);
      assert s == [s[0]] + s[1..];
      [s[0]] + rest
  }

  /** A lower bound of a run and of the inserted point bounds the
      result. */
  lemma {:induction false} InsertByDistanceAbove(s: seq<MeshPoint>, x: MeshPoint, lo: real)
    requires forall i :: 0 <= i < |s| ==> lo <= s[i].distance
    requires lo <= x.distance
    ensures forall i :: 0 <= i < |InsertByDistance(s, x)| ==> lo <= InsertByDistance(s, x)[i].distance
  {
    if |s| > 0 && x.distance > s[0].distance {
      InsertByDistanceAbove(s[1..], x, lo);
      assert InsertByDistance(s, x) == [s[0]] + InsertByDistance(s[1..], x);
    }
  }

  /** A point no farther than any of an ordered run may go in front. */
  lemma ConsByDistance(h: MeshPoint, rest: seq<MeshPoint>)
    requires ByDistance(rest) && forall i :: 0 <= i < |rest| ==> h.distance <= rest[i].distance
    ensures ByDistance([h] + rest)
  {
    var r := [h] + rest;
    forall i, j | 0 <= i < j < |r| ensures r[i].distance <= r[j].distance {
      assert r[j] == rest[j - 1];
      if i > 0 {
        assert r[i] == rest[i - 1];
      }
    }
  }

  /** Inserting into a run ordered by distance keeps it ordered. */
  lemma {:induction false} InsertByDistanceSorted(s: seq<MeshPoint>, x: MeshPoint)
    requires ByDistance(s)
    ensures ByDistance(InsertByDistance(s, x))
  {
    if |s| == 0 {
    } else if x.distance <= s[0].distance {
      ConsByDistance(x, s);
    } else {
      var tail := s[1..];
      InsertByDistanceSorted(tail, x);
      InsertByDistanceAbove(tail, x, s[0].distance);
      assert InsertByDistance(s, x) == [s[0]] + InsertByDistance(tail, x);
      ConsByDistance(s[0], InsertByDistance(tail, x));
    }
  }

  /** `std::sort` with `compare_by_distance`: a permutation ordered by
      distance (among equal distances the order is one of those the sort
      may produce). */
  function SortByDistance(s: seq<MeshPoint>): (r: seq<MeshPoint>)
    ensures ByDistance(r) && multiset(r) == multiset(s) && |r| == |s|
  {
    if |s| == 0 then []
    else
      var prefix, last := s[..|s| - 1], s[|s| - 1];
      var sorted := SortByDistance(prefix);
      assert multiset(s) == multiset(prefix) + multiset{last} by {
        assert s == prefix + [last];
      }
      InsertByDistanceSorted(sorted, last);
      InsertByDistance(sorted, last)
  }

  /** Keeping the first `k` of a run ordered by distance keeps the `k`
      nearest: none of those dropped is nearer than one kept. */
  lemma KeptAreNearest(s: seq<MeshPoint>, k: nat)
    requires ByDistance(s) && k <= |s|
    ensures forall a, b :: a in s[..k] && b in s[k..] ==> a.distance <= b.distance
  {
    forall a, b | a in s[..k] && b in s[k..] ensures a.distance <= b.distance {
      var i :| 0 <= i < k && s[i] == a;
      var j :| 0 <= j < |s| - k && s[k..][j] == b;
    }
  }

  /** The identity on `0 .. n-1`. */
  function Range(n: nat): (r: seq<int>)
    ensures |r| == n && forall k :: 0 <= k < n ==> r[k] == k
  {
    if n == 0 then [] else Range(n - 1) + [n - 1]
  }

  /** The shuffle of the constructor: `indices` starts as `0 .. n-1` and
      position `i` swaps with position `draws[i] % n`, `draws[i]` standing
      for the `i`-th `rand()`. */
  method Shuffle(n: nat, draws: seq<nat>) returns (indices: seq<int>)
    requires |draws| == n
    ensures |indices| == n && multiset(indices) == multiset(Range(n))
  {
    var a := new int[n];
    for i := 0 to n
      invariant forall k :: 0 <= k < i ==> a[k] == k
    {
      a[i] := i;
    }
    assert a[..] == Range(n);
    for i := 0 to n
      invariant multiset(a[..]) == multiset(Range(n))
    {
      var j := draws[i] % n;
      a[i], a[j] := a[j], a[i];
    }
    indices := a[..];
  }

  /** Every index is one of the points'. */
  predicate IndicesIn(indices: seq<int>, n: nat)
  {
    forall k :: 0 <= k < |indices| ==> 0 <= indices[k] < n
  }

  /** A permutation of `0 .. n-1` holds indices below `n`. */
  lemma PermutationIndicesIn(indices: seq<int>, n: nat)
    requires multiset(indices) == multiset(Range(n))
    ensures IndicesIn(indices, n)
  {
    var r := Range(n);
    forall k | 0 <= k < |indices| ensures 0 <= indices[k] < n {
      assert indices[k] in multiset(r);
      var m :| 0 <= m < |r| && r[m] == indices[k];
    }
  }

  /** The positions of the points the first `i` indices select. */
  ghost function Selected(points: seq<MeshPoint>, indices: seq<int>, i: nat): set<Vec3>
    requires IndicesIn(indices, |points|) && i <= |indices|
  {
    set k | 0 <= k < i :: points[indices[k]].pos
  }

  /** The positions of all the points. */
  ghost function PointSet(points: seq<MeshPoint>): set<Vec3>
  {
    set m | 0 <= m < |points| :: points[m].pos
  }

  /** A permutation of the indices reaches every point. */
  lemma PermutedPositions(points: seq<MeshPoint>, indices: seq<int>)
    requires |indices| == |points| && multiset(indices) == multiset(Range(|points|))
    requires IndicesIn(indices, |points|)
    ensures Selected(points, indices, |indices|) == PointSet(points)
  {
    var r := Range(|points|);
    forall m | 0 <= m < |points|
      ensures points[m].pos in Selected(points, indices, |indices|)
    {
      assert r[m] == m && m in r;
      assert m in multiset(r);
      assert m in indices;
      var k :| 0 <= k < |indices| && indices[k] == m;
      assert points[indices[k]].pos in Selected(points, indices, |indices|);
    }
  }

  /** `kdtree<mesh_point>`: the node pool, the root pointer and the count
      of points added. */
  class Tree {
    var pool: seq<Node>
    var root: int
    var length: int

    /** The pool is a search tree of distinct positions rooted at its
        first node. */
    ghost predicate Valid()
      reads this
    {
      Linked(pool) && Ordered(pool) && Distinct(pool) && root == (if |pool| == 0 then Null else 0)
    }

    /** The constructor: the points inserted in shuffled order, `length`
        counting those `add` accepted, so that the tree holds each
        distinct position once. */
    constructor (points: seq<MeshPoint>, draws: seq<nat>)
      requires |draws| == |points|
      ensures Valid() && length == |pool|
      ensures Points(pool) == PointSet(points)
    {
      pool := [];
      root := Null;
      length := 0;
      new;
      var indices := Shuffle(|points|, draws);
      PermutationIndicesIn(indices, |points|);
      var i := 0;
      while i < |indices|
        invariant 0 <= i <= |indices| && Valid() && length == |pool|
        invariant Points(pool) == Selected(points, indices, i)
      {
        var q := points[indices[i]];
        var added := Add(q);
        if added {
          length := length + 1;
        }
        assert Selected(points, indices, i + 1) == Selected(points, indices, i) + {q.pos};
        i := i + 1;
      }
      PermutedPositions(points, indices);
    }

    /** `size`: the number of distinct positions stored. */
    function Size(): (n: int)
      requires Valid() && length == |pool|
      reads this
      ensures n == |Points(pool)|
    {
      DistinctCount(pool);
      length
    }

    /** `get_node(p)`: the node holding `p`'s position, `Null` when there
        is none. */
    method GetNode(p: MeshPoint) returns (t: int)
      requires Valid()
      ensures t == Null <==> p.pos !in Points(pool)
      ensures t != Null ==> 0 <= t < |pool| && pool[t].val.pos == p.pos
    {
      t := root;
      if root != Null {
        forall j | 0 <= j < |pool| ensures j in Subtree(pool, 0) {
          UnderRoot(pool, j);
        }
      }
      while t != Null
        invariant t == Null || 0 <= t < |pool|
        invariant forall j :: 0 <= j < |pool| && pool[j].val.pos == p.pos ==> j in Subtree(pool, t)
        decreases if t == Null then 0 else |pool| + 1 - t
      {
        var test := pool[t].val.pos;
        if test.x == p.pos.x && test.y == p.pos.y && test.z == p.pos.z {
          return;
        }
        forall j | 0 <= j < |pool| && pool[j].val.pos == p.pos ensures j in Subtree(pool, Side(pool, t, p)) {
          FindStep(pool, t, p, j);
        }
        assert NodeOk(pool, t);
        t := Side(pool, t, p);
      }
      assert Subtree(pool, Null) == {};
    }

    /** `contains`: whether `p`'s position is stored. */
    method Contains(p: MeshPoint) returns (b: bool)
      requires Valid()
      ensures b <==> p.pos in Points(pool)
    {
      if root == Null {
        return false;
      }
      var t := GetNode(p);
      return t != Null;
    }

    /** `get_node(root, p)`: the last node of the descent for `p`, whose
        child slot on `p`'s side is free; `Null` for an empty tree. */
    method FindLeaf(p: MeshPoint) returns (parent: int)
      requires Valid()
      ensures parent == Null <==> |pool| == 0
      ensures parent != Null ==> 0 <= parent < |pool| && Side(pool, parent, p) == Null && PathOk(pool, parent, p)
    {
      var t := root;
      parent := Null;
      if root != Null {
        PathRoot(pool, p);
      }
      while t != Null
        invariant t == Null || (0 <= t < |pool| && PathOk(pool, t, p))
        invariant parent == Null ==> t == root
        invariant parent != Null ==> 0 <= parent < |pool| && PathOk(pool, parent, p) && t == Side(pool, parent, p)
        decreases if t == Null then 0 else |pool| + 1 - t
      {
        assert NodeOk(pool, t);
        if Side(pool, t, p) != Null {
          PathStep(pool, t, p);
        }
        parent := t;
        t := Side(pool, t, p);
      }
    }

    /** `add`: `false` when the position is already stored; otherwise a
        new node, on the axis after its parent's, pushed to the pool and
        linked on the side `compare` selects (or made the root). */
    method Add(p: MeshPoint) returns (added: bool)
      requires Valid()
      modifies this
      ensures Valid() && length == old(length)
      ensures added <==> p.pos !in old(Points(pool))
      ensures !added ==> pool == old(pool) && root == old(root)
      ensures added ==> exists leaf :: (|old(pool)| == 0 || 0 <= leaf < |old(pool)|) && pool == Attach(old(pool), p, leaf)
      ensures added ==> Points(pool) == old(Points(pool)) + {p.pos}
    {
      var axis := 0;
      var found := Contains(p);
      if found {
        return false;
      }
      var parent := FindLeaf(p);
      if parent != Null {
        axis := (pool[parent].axis + 1) % Dims;
      }
      ghost var before := pool;
      pool := pool + [Node(p, axis, Null, Null, Null)];
      var newNode := |pool| - 1;
      if root != Null {
        pool := pool[newNode := pool[newNode].(parent := parent)];
        if Compare(pool[parent].axis, p, pool[parent].val) >= 0 {
          pool := pool[parent := pool[parent].(right := newNode)];
        } else {
          pool := pool[parent := pool[parent].(left := newNode)];
        }
      } else {
        root := newNode;
      }
      assert pool == Attach(before, p, parent);
      AttachLinked(before, p, parent);
      if parent != Null {
        AttachOrdered(before, p, parent);
      }
      AttachPoints(before, p, parent);
      return true;
    }

    /** `orthogonalSearch`: the values in the box appended to `result`. */
    method OrthogonalSearch(lo: Vec3, hi: Vec3, result: seq<MeshPoint>) returns (res: seq<MeshPoint>)
      requires Valid()
      ensures res == result + ValuesAt(pool, OrthoSearch(pool, root, lo, hi))
    {
      var n := OrthoSearch(pool, root, lo, hi);
      res := PushValues(pool, n, result);
    }

    /** `neighbors`: the values within `radius` of `mp` on every axis; for
        `k > 0`, with their squared distances to `mp` filled in, sorted by
        distance and cut to the `k` nearest. */
    method Neighbors(mp: Vec3, k: nat, radius: real) returns (t: seq<MeshPoint>)
      requires Valid()
      ensures k == 0 ==> t == ValuesAt(pool, OrthoSearch(pool, root, LowCorner(mp, radius), HighCorner(mp, radius)))
      ensures k > 0 ==> t == Nearest(ValuesAt(pool, OrthoSearch(pool, root, LowCorner(mp, radius), HighCorner(mp, radius))), mp, k)
    {
      var lo, hi := LowCorner(mp, radius), HighCorner(mp, radius);
      ghost var found := ValuesAt(pool, OrthoSearch(pool, root, lo, hi));
      t := OrthogonalSearch(lo, hi, []);
      assert t == found by {
        assert [] + found == found;
      }
      if k > 0 {
        t := FillDistances(t, mp);
        t := SortByDistance(t);
        var size := if |t| > k then k else |t|;
        t := t[..size];
      }
    }
  }

  /** The distance loop of `neighbors`. */
  method FillDistances(t: seq<MeshPoint>, mp: Vec3) returns (u: seq<MeshPoint>)
    ensures u == WithDistances(t, mp)
  {
    u := t;
    var i := 0;
    while i < |u|
      invariant 0 <= i <= |u| == |t|
      invariant u[..i] == WithDistances(t, mp)[..i] && u[i..] == t[i..]
    {
      u := u[i := u[i].(distance := SquaredDist(u[i].pos, mp))];
      i := i + 1;
    }
  }

  /** The loop of `orthogonalSearch`: the values at the found nodes pushed
      onto `result` one by one. */
  method PushValues(pool: seq<Node>, n: seq<int>, result: seq<MeshPoint>) returns (res: seq<MeshPoint>)
    requires forall k :: 0 <= k < |n| ==> 0 <= n[k] < |pool|
    ensures res == result + ValuesAt(pool, n)
  {
    res := result;
    var i := 0;
    while i < |n|
      invariant 0 <= i <= |n| && res == result + ValuesAt(pool, n[..i])
    {
      assert n[..i + 1][..i] == n[..i];
      res := res + [pool[n[i]].val];
      i := i + 1;
    }
    assert n[..|n|] == n;
  }

  /** What `neighbors` returns for `k > 0` from the found points. */
  function Nearest(found: seq<MeshPoint>, mp: Vec3, k: nat): (t: seq<MeshPoint>)
    ensures |t| == if |found| > k then k else |found|
  {
    var sorted := SortByDistance(WithDistances(found, mp));
    sorted[..if |sorted| > k then k else |sorted|]
  }

  /** Every slot holds the squared distance to `mp`. */
  predicate DistancesTo(s: seq<MeshPoint>, mp: Vec3)
  {
    forall i :: 0 <= i < |s| ==> s[i].distance == SquaredDist(s[i].pos, mp)
  }

  /** A permutation keeps the slots right. */
  lemma PermutationKeepsDistances(a: seq<MeshPoint>, b: seq<MeshPoint>, mp: Vec3)
    requires DistancesTo(a, mp) && multiset(a) == multiset(b)
    ensures DistancesTo(b, mp)
  {
    forall i | 0 <= i < |b| ensures b[i].distance == SquaredDist(b[i].pos, mp) {
      assert b[i] in multiset(a);
      var j :| 0 <= j < |a| && a[j] == b[i];
    }
  }

  /** The values `neighbors` returns for `k > 0` are ordered by their
      squared distance to `mp`, which their slots hold; and no found point
      left out is nearer than one returned. */
  lemma NeighborsNearest(found: seq<MeshPoint>, mp: Vec3, k: nat)
    requires k > 0
    ensures ByDistance(Nearest(found, mp, k)) && DistancesTo(Nearest(found, mp, k), mp)
    ensures forall a, b :: a in Nearest(found, mp, k) && b in SortByDistance(WithDistances(found, mp))[|Nearest(found, mp, k)|..] ==>
              a.distance <= b.distance
  {
    var u := WithDistances(found, mp);
    var all := SortByDistance(u);
    var size := if |found| > k then k else |found|;
    assert DistancesTo(u, mp);
    PermutationKeepsDistances(u, all, mp);
    KeptAreNearest(all, size);
  }

  /** The box search of the whole tree finds exactly the stored nodes in
      the box. */
  lemma SearchFindsBox(pool: seq<Node>, lo: Vec3, hi: Vec3, d: int)
    requires Linked(pool) && Ordered(pool)
    ensures var root := if |pool| == 0 then Null else 0;
            d in OrthoSearch(pool, root, lo, hi) <==> 0 <= d < |pool| && InBox(pool[d].val.pos, lo, hi)
  {
    var root := if |pool| == 0 then Null else 0;
    OrthoExact(pool, root, lo, hi, d);
    if 0 <= d < |pool| {
      UnderRoot(pool, d);
    }
  }
}
