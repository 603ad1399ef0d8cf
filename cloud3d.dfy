/** The point cloud of cvlab (src/stereoviewer/cvlab/cvlab/cloud3d.h,
    cloud3d.cpp): a list of points together with a separately kept count.
    The list is a `seq`, the `unsigned int` count a `nat`. */
module Cloud3D {
  import opened Wrappers
  import opened Math3D

  /** The componentwise sum of a run of points, from the origin on. */
  function Sum(ps: seq<Vec3>): Vec3
  {
    if |ps| == 0 then Origin else Add(Sum(ps[..|ps| - 1]), ps[|ps| - 1])
  }

  /** Sums add up over concatenation. */
  lemma {:induction false} SumAppend(a: seq<Vec3>, b: seq<Vec3>)
    ensures Sum(a + b) == Add(Sum(a), Sum(b))
    decreases |b|
  {
    if |b| == 0 {
      assert a + b == a;
    } else {
      var b' := b[..|b| - 1];
      assert (a + b)[..|a + b| - 1] == a + b';
      SumAppend(a, b');
    }
  }

  class Cloud {
    var points: seq<Vec3>
    var npoints: nat

    /** The count is the length of the list. */
    predicate Valid()
      reads this
    {
      npoints == |points|
    }

    constructor()
      ensures Valid() && points == []
    {
      points := [];
      npoints := 0;
    }

    /** `cloud3d(const vector<point3d>&)`. */
    constructor FromPoints(pts: seq<Vec3>)
      ensures Valid() && points == pts
    {
      points := pts;
      npoints := |pts|;
    }

    /** `clear`: the list emptied and the count reset; the cloud itself is
        returned. */
    method Clear() returns (self: Cloud)
      modifies this
      ensures Valid() && points == [] && self == this
    {
      points := [];
      npoints := 0;
      return this;
    }

    /** `n_points`: the stored count, which is the number of points. */
    function NPoints(): (n: nat)
      requires Valid()
      reads this
      ensures n == |points|
    {
      npoints
    }

    /** `add_point`: one point at the end. */
    method AddPoint(p: Vec3)
      modifies this
      ensures points == old(points) + [p] && npoints == old(npoints) + 1
    {
      points := points + [p];
      npoints := npoints + 1;
    }

    /** `assign(const vector<point3d>&)` and the `operator=` taking a
        vector: the old points replaced by the given ones. */
    method AssignPoints(pts: seq<Vec3>) returns (self: Cloud)
      modifies this
      ensures Valid() && points == pts && self == this
    {
      points := [];
      npoints := |pts|;
      points := pts;
      return this;
    }

    /** `assign(const cloud3d&)` as written: the count copied, the own list
        cleared, then the other list appended, so that assigning a cloud
        to itself clears its list but keeps its count. */
    method AssignCloudAsWritten(o: Cloud)
      modifies this
      ensures npoints == old(o.npoints)
      ensures o != this ==> points == old(o.points)
      ensures o == this ==> points == []
    {
      npoints := o.npoints;
      points := [];
      points := points + o.points;
    }

    /** `assign(const cloud3d&)` and its `operator=` with self-assignment
        left alone: afterwards the cloud holds the other's points and
        count. */
    method AssignCloud(o: Cloud) returns (self: Cloud)
      modifies this
      ensures points == old(o.points) && npoints == old(o.npoints) && self == this
      ensures o.Valid() ==> Valid()
    {
      if o != this {
        npoints := o.npoints;
        points := [];
        points := points + o.points;
      }
      return this;
    }

    /** `overlap(const cloud3d&)`: the other's points appended, the count
        re-read from the list. */
    method Overlap(c: Cloud) returns (self: Cloud)
      modifies this
      ensures Valid() && points == old(points) + old(c.points) && self == this
    {
      points := points + c.points;
      npoints := |points|;
      return this;
    }

    /** `overlap(const vector<point3d>&)`: the points pushed one by one and
        the count raised by their number. */
    method OverlapPoints(p: seq<Vec3>) returns (self: Cloud)
      modifies this
      ensures points == old(points) + p && npoints == old(npoints) + |p| && self == this
      ensures old(Valid()) ==> Valid()
    {
      var i := 0;
      while i < |p|
        invariant 0 <= i <= |p| && points == old(points) + p[..i] && npoints == old(npoints)
      {
        points := points + [p[i]];
        i := i + 1;
      }
      assert p[..|p|] == p;
      npoints := npoints + |p|;
      return this;
    }

    /** `getPointsVec`: a vector of `n_points` slots filled in list order
        (the source writes past the vector when the count were smaller
        than the list). */
    method GetPointsVec() returns (vec: seq<Vec3>)
      requires Valid()
      ensures vec == points && |vec| == NPoints()
    {
      var v := new Vec3[npoints](_ => Origin);
      var k := 0;
      while k < |points|
        invariant 0 <= k <= |points| && v[..k] == points[..k]
      {
        v[k] := Vec3(points[k].x, points[k].y, points[k].z);
        k := k + 1;
      }
      vec := v[..];
    }

    /** `get_barycenter`: `logic_error` on an empty cloud, otherwise the
        sum of the points divided by their number. */
    method GetBarycenter() returns (r: Result<Vec3>)
      ensures |points| == 0 ==> r == Fail(LogicError)
      ensures |points| > 0 ==> r == Ok(DivBy(Sum(points), |points| as real))
    {
      if |points| == 0 {
        return Fail(LogicError);
      }
      var centroid := Origin;
      var i := 0;
      while i < |points|
        invariant 0 <= i <= |points| && centroid == Sum(points[..i])
      {
        assert points[..i + 1][..i] == points[..i];
        centroid := Add(centroid, points[i]);
        i := i + 1;
      }
      assert points[..|points|] == points;
      return Ok(DivBy(centroid, |points| as real));
    }
  }

  /** The barycenter of a single point is that point. */
  lemma BarycenterOfOne(p: Vec3)
    ensures DivBy(Sum([p]), 1.0) == p
  {
    assert [p][..0] == [];
  }

  /** Assigning a one-point cloud to itself leaves a cloud whose count says
      one while its list is empty. */
  method SelfAssignmentLosesPoints() returns (count: nat, length: nat)
    ensures count == 1 && length == 0
  {
    var c := new Cloud.FromPoints([Origin]);
    c.AssignCloudAsWritten(c);
    count, length := c.npoints, |c.points|;
  }

  /** With the alias check the same assignment keeps the point. */
  method SelfAssignmentKeepsPoints() returns (count: nat, length: nat)
    ensures count == 1 && length == 1
  {
    var c := new Cloud.FromPoints([Origin]);
    var _ := c.AssignCloud(c);
    count, length := c.npoints, |c.points|;
  }
}
