/** Bundler's `RadialUndistort` tool: it reads the image list and a bundle
    file, writes `list.rd.txt` and `bundle.rd.out` for the cameras that
    were reconstructed (focal length not zero), and names the undistorted
    image of each.  The pixel resampling itself is not part of this model. */
module RadialUndistort {
  import opened Wrappers
  import opened Math3D
  import opened BundleFiles

  // ---------------------------------------------------------------------
  // Reading

  /** `point_t`: position, colour and views. */
  datatype Point = Point(pos: Vec3, color: Vec3, views: seq<ViewRecord>)

  /** A point as stored: files before version 0.3 have their z negated. */
  function Stored(rec: PointRecord, version: real): (pt: Point)
    ensures pt.pos.x == rec.pos.x && pt.pos.y == rec.pos.y && pt.color == rec.color && pt.views == rec.views
    ensures pt.pos.z == if version < 0.3 then -rec.pos.z else rec.pos.z
  {
    var pos := if version < 0.3 then rec.pos.(z := -rec.pos.z) else rec.pos;
    Point(pos, rec.color, rec.views)
  }

  /** The points kept: those with at least one view, in order. */
  function KeptPoints(recs: seq<PointRecord>, version: real): (pts: seq<Point>)
    ensures |pts| <= |recs|
  {
    if |recs| == 0 then []
    else
      var last := recs[|recs| - 1];
      KeptPoints(recs[..|recs| - 1], version) + (if last.numVisible > 0 then [Stored(last, version)] else [])
  }

  /** The cameras and points `ReadBundleFile` leaves, or `None` for a file
      whose header or numbers cannot be read as the version demands.  A file
      that cannot be opened leaves both empty. */
  function ReadBundle(file: Option<BundleText>, scanReal: string -> Option<real>, scanCounts: string -> Option<(int, int)>)
    : Option<(seq<CameraRecord>, seq<Point>)>
  {
    match file
    case None => Some(([], []))
    case Some(b) =>
      match ReadHeader(b, scanReal, scanCounts)
      case None => None
      case Some(h) =>
        match Repeat(CameraReader(b.fields, h.version), h.next, h.numImages)
        case None => None
        case Some((cams, q)) =>
          match Repeat(PointReader(b.fields, h.version), q, h.numPoints)
          case None => None
          case Some((pts, _)) => Some((cams, KeptPoints(pts, h.version)))
  }

  /** `ReadBundleFile`: the cameras as read (the flip of old versions only
      touches the local copies, after the camera was filled), and the
      points with a view, their z negated before version 0.3. */
  method ReadBundleFile(file: Option<BundleText>, scanReal: string -> Option<real>, scanCounts: string -> Option<(int, int)>)
    returns (r: Option<(seq<CameraRecord>, seq<Point>)>)
    ensures r == ReadBundle(file, scanReal, scanCounts)
  {
    if file.None? {
      return Some(([], []));
    }
    var fs := file.value.fields;
    var header := ReadHeader(file.value, scanReal, scanCounts);
    if header.None? {
      return None;
    }
    var h := header.value;
    var cameras, pos := ReadCameras(fs, h.version, h.next, h.numImages);
    if cameras.None? {
      return None;
    }
    var points := ReadPoints(fs, h.version, pos, h.numPoints);
    if points.None? {
      return None;
    }
    return Some((cameras.value, points.value));
  }

  /** The camera loop of `ReadBundleFile`. */
  method ReadCameras(fs: seq<Field>, version: real, p: nat, n: int) returns (cameras: Option<seq<CameraRecord>>, pos: nat)
    ensures cameras.Some? <==> Repeat(CameraReader(fs, version), p, n).Some?
    ensures cameras.Some? ==> Repeat(CameraReader(fs, version), p, n) == Some((cameras.value, pos))
  {
    var cams: seq<CameraRecord> := [];
    pos := p;
    var left := n;
    PrefixedNothing(Repeat(CameraReader(fs, version), p, n));
    while left > 0
      invariant Prefixed(cams, Repeat(CameraReader(fs, version), pos, left)) == Repeat(CameraReader(fs, version), p, n)
      decreases left
    {
      var rec := ReadCamera(fs, pos, version);
      if rec.None? {
        return None, pos;
      }
      RepeatStep(CameraReader(fs, version), pos, left, cams);
      var c := rec.value.0;
      var R, t := c.R, c.t;
      var cam := CameraRecord(c.f, c.k, R, t);
      if version < 0.3 {
        R := R[2 := -R[2]][5 := -R[5]][6 := -R[6]][7 := -R[7]];
        t := t[2 := -t[2]];
      }
      cams := cams + [cam];
      pos := rec.value.1;
      left := Pred(left);
    }
    assert cams + [] == cams;
    cameras := Some(cams);
  }

  /** The point loop of `ReadBundleFile`. */
  method ReadPoints(fs: seq<Field>, version: real, p: nat, n: int) returns (points: Option<seq<Point>>)
    ensures points.Some? <==> Repeat(PointReader(fs, version), p, n).Some?
    ensures points.Some? ==> points.value == KeptPoints(Repeat(PointReader(fs, version), p, n).value.0, version)
  {
    var pts: seq<Point> := [];
    ghost var recs: seq<PointRecord> := [];
    var pos := p;
    var left := n;
    PrefixedNothing(Repeat(PointReader(fs, version), p, n));
    while left > 0
      invariant Prefixed(recs, Repeat(PointReader(fs, version), pos, left)) == Repeat(PointReader(fs, version), p, n)
      invariant pts == KeptPoints(recs, version)
      decreases left
    {
      var read := ReadPointAt(fs, pos, version);
      if read.None? {
        return None;
      }
      var rec := read.value.0;
      assert PointReader(fs, version)(pos) == read;
      RepeatStep(PointReader(fs, version), pos, left, recs);
      var pt := Point(rec.pos, rec.color, rec.views);
      if version < 0.3 {
        pt := pt.(pos := pt.pos.(z := -pt.pos.z));
      }
      assert pt == Stored(rec, version);
      KeptPointsSnoc(recs, rec, version);
      if rec.numVisible > 0 {
        pts := pts + [pt];
      }
      recs := recs + [rec];
      pos := read.value.1;
      left := Pred(left);
    }
    assert recs + [] == recs;
    points := Some(pts);
  }

  lemma KeptPointsSnoc(recs: seq<PointRecord>, rec: PointRecord, version: real)
    ensures KeptPoints(recs + [rec], version) == KeptPoints(recs, version) + (if rec.numVisible > 0 then [Stored(rec, version)] else [])
  {
    assert (recs + [rec])[..|recs|] == recs;
  }

  /** The points kept are exactly those read with a view, each with its
      z negated before version 0.3. */
  lemma {:induction false} KeptPointsAre(recs: seq<PointRecord>, version: real)
    requires forall i :: 0 <= i < |recs| ==> ViewsCounted(recs[i])
    ensures forall i :: 0 <= i < |KeptPoints(recs, version)| ==> |KeptPoints(recs, version)[i].views| > 0
    ensures |KeptPoints(recs, version)| == Seen(recs)
    ensures Seen(recs) == |recs| ==> forall i :: 0 <= i < |recs| ==> KeptPoints(recs, version)[i] == Stored(recs[i], version)
  {
    if |recs| > 0 {
      var init := recs[..|recs| - 1];
      KeptPointsAre(init, version);
      if Seen(recs) == |recs| {
        SeenAtMost(init);
      }
    }
  }

  /** The number of points read with a view. */
  function Seen(recs: seq<PointRecord>): nat
  {
    if |recs| == 0 then 0 else Seen(recs[..|recs| - 1]) + (if recs[|recs| - 1].numVisible > 0 then 1 else 0)
  }

  lemma {:induction false} SeenAtMost(recs: seq<PointRecord>)
    ensures Seen(recs) <= |recs|
  {
    if |recs| > 0 {
      SeenAtMost(recs[..|recs| - 1]);
    }
  }

  /** Every camera read has a 3 by 3 rotation and a translation, and
      distortion parameters exactly from version 0.2 on. */
  lemma {:induction false} CamerasShaped(fs: seq<Field>, version: real, p: nat, n: int)
    ensures Repeat(CameraReader(fs, version), p, n).Some? ==>
              forall i :: 0 <= i < |Repeat(CameraReader(fs, version), p, n).value.0| ==>
                Writable(Repeat(CameraReader(fs, version), p, n).value.0[i])
                && (Repeat(CameraReader(fs, version), p, n).value.0[i].k.Some? <==> version >= 0.2)
    decreases n
  {
    if n > 0 && CameraReader(fs, version)(p).Some? {
      CamerasShaped(fs, version, CameraReader(fs, version)(p).value.1, Pred(n));
    }
  }

  /** What `ReadBundleFile` leaves, in terms of the header: one camera per
      count, each shaped as the version says, and only points with a view. */
  lemma ReadBundleShape(b: BundleText, scanReal: string -> Option<real>, scanCounts: string -> Option<(int, int)>)
    requires ReadHeader(b, scanReal, scanCounts).Some? && ReadBundle(Some(b), scanReal, scanCounts).Some?
    ensures var h := ReadHeader(b, scanReal, scanCounts).value;
            var (cams, pts) := ReadBundle(Some(b), scanReal, scanCounts).value;
            |cams| == (if h.numImages < 0 then 0 else h.numImages)
            && (forall i :: 0 <= i < |cams| ==> Writable(cams[i]) && (cams[i].k.Some? <==> h.version >= 0.2))
            && (forall i :: 0 <= i < |pts| ==> |pts[i].views| > 0)
  {
    var h := ReadHeader(b, scanReal, scanCounts).value;
    CamerasShaped(b.fields, h.version, h.next, h.numImages);
    var q := Repeat(CameraReader(b.fields, h.version), h.next, h.numImages).value.1;
    PointsCounted(b.fields, h.version, q, h.numPoints);
    KeptPointsAre(Repeat(PointReader(b.fields, h.version), q, h.numPoints).value.0, h.version);
  }

  // ---------------------------------------------------------------------
  // Writing

  /** A camera with the rotation and translation `WriteBundleFile` prints. */
  predicate Writable(c: CameraRecord)
  {
    |c.R| == 9 && |c.t| == 3
  }

  /** A camera that was reconstructed. */
  predicate Good(c: CameraRecord)
  {
    c.f != 0.0
  }

  /** The number of reconstructed cameras, `num_good_images`. */
  function CountGood(cams: seq<CameraRecord>): (n: nat)
    ensures n <= |cams|
  {
    if |cams| == 0 then 0 else CountGood(cams[..|cams| - 1]) + (if Good(cams[|cams| - 1]) then 1 else 0)
  }

  /** The index camera `i` gets in the written file, or -1. */
  function RemapOf(cams: seq<CameraRecord>, i: nat): int
    requires i < |cams|
  {
    if Good(cams[i]) then CountGood(cams[..i]) else -1
  }

  /** The `remap` array as a sequence. */
  function Remaps(cams: seq<CameraRecord>): (m: seq<int>)
    ensures |m| == |cams| && forall i :: 0 <= i < |cams| ==> m[i] == RemapOf(cams, i)
  {
    seq(|cams|, i requires 0 <= i < |cams| => RemapOf(cams, i))
  }

  /** The loop of `WriteBundleFile` that fills `remap` and counts the
      reconstructed cameras. */
  method Remap(cams: seq<CameraRecord>) returns (remap: array<int>, numGood: int)
    ensures fresh(remap) && remap[..] == Remaps(cams) && numGood == CountGood(cams)
  {
    remap := new int[|cams|];
    numGood := 0;
    for i := 0 to |cams|
      invariant numGood == CountGood(cams[..i])
      invariant forall k :: 0 <= k < i ==> remap[k] == RemapOf(cams, k)
    {
      assert cams[..i + 1][..i] == cams[..i];
      remap[i] := -1;
      if cams[i].f == 0.0 {
        continue;
      }
      remap[i] := numGood;
      numGood := numGood + 1;
    }
    assert cams[..|cams|] == cams;
  }

  lemma {:induction false} CountGoodPrefix(cams: seq<CameraRecord>, a: nat, b: nat)
    requires a <= b <= |cams|
    ensures CountGood(cams[..a]) <= CountGood(cams[..b])
    ensures a < b && Good(cams[a]) ==> CountGood(cams[..a]) < CountGood(cams[..b])
    decreases b - a
  {
    if a < b {
      CountGoodPrefix(cams, a, b - 1);
      assert cams[..b][..b - 1] == cams[..b - 1];
      if a == b - 1 {
        assert cams[..b][b - 1] == cams[a];
      }
    }
  }

  /** The reconstructed cameras are numbered in their order, onto
      `0 .. num_good_images - 1`; the others get -1. */
  lemma RemapOrdered(cams: seq<CameraRecord>, i: nat, j: nat)
    requires i < j < |cams|
    ensures !Good(cams[i]) ==> RemapOf(cams, i) == -1
    ensures Good(cams[i]) && Good(cams[j]) ==> 0 <= RemapOf(cams, i) < RemapOf(cams, j) < CountGood(cams)
  {
    CountGoodPrefix(cams, i, j);
    CountGoodPrefix(cams, j, |cams|);
    assert cams[..|cams|] == cams;
  }

  /** Every index of the written file is some reconstructed camera's. */
  lemma {:induction false} RemapOnto(cams: seq<CameraRecord>, r: nat) returns (i: nat)
    requires r < CountGood(cams)
    ensures i < |cams| && Good(cams[i]) && RemapOf(cams, i) == r
    decreases |cams|
  {
    var init := cams[..|cams| - 1];
    if r < CountGood(init) {
      i := RemapOnto(init, r);
      assert cams[..i] == init[..i];
    } else {
      i := |cams| - 1;
      assert cams[..i] == init;
    }
  }

  /** Numbers printed with `%lf` (six decimals, not modelled). */
  function RealFields(rs: seq<real>): (fs: seq<Field>)
    ensures |fs| == |rs| && forall i :: 0 <= i < |rs| ==> fs[i] == Real(rs[i])
  {
    seq(|rs|, i requires 0 <= i < |rs| => Real(rs[i]))
  }

  /** A reconstructed camera as written: focal length, zero distortion,
      rotation, translation. */
  function CameraFields(c: CameraRecord): seq<Field>
  {
    [Real(c.f), Real(0.0), Real(0.0)] + RealFields(c.R) + RealFields(c.t)
  }

  /** The camera block: the reconstructed cameras only. */
  function CamerasFields(cams: seq<CameraRecord>): seq<Field>
  {
    if |cams| == 0 then [] else (if Good(cams[0]) then CameraFields(cams[0]) else []) + CamerasFields(cams[1..])
  }

  /** Every view refers to a camera. */
  predicate ViewsIn(n: nat, pts: seq<Point>)
  {
    forall i :: 0 <= i < |pts| ==> ViewsOf(n, pts[i].views)
  }

  /** Every view refers to one of `n` cameras. */
  predicate ViewsOf(n: nat, views: seq<ViewRecord>)
  {
    forall j :: 0 <= j < |views| ==> 0 <= views[j].image < n
  }

  /** The position of a view as printed: the one read, or, for a file
      before version 0.3, the indeterminate `unset`. */
  function XY(v: ViewRecord, unset: (real, real)): (real, real)
  {
    if v.xy.Some? then v.xy.value else unset
  }

  /** A view as written: its camera's new index, key and position. */
  function ViewFields(v: ViewRecord, remap: seq<int>, unset: (real, real)): seq<Field>
    requires 0 <= v.image < |remap|
  {
    [Int(remap[v.image]), Int(v.key), Real(XY(v, unset).0), Real(XY(v, unset).1)]
  }

  function ViewsFields(views: seq<ViewRecord>, remap: seq<int>, unset: (real, real)): seq<Field>
    requires ViewsOf(|remap|, views)
  {
    if |views| == 0 then [] else ViewFields(views[0], remap, unset) + ViewsFields(views[1..], remap, unset)
  }

  /** A point as written: position, colour rounded by `iround` (`round`),
      the number of views, and the views. */
  function PointFields(pt: Point, remap: seq<int>, round: real -> int, unset: (real, real)): seq<Field>
    requires ViewsOf(|remap|, pt.views)
  {
    [Real(pt.pos.x), Real(pt.pos.y), Real(pt.pos.z),
     Int(round(pt.color.x)), Int(round(pt.color.y)), Int(round(pt.color.z)), Int(|pt.views|)]
      + ViewsFields(pt.views, remap, unset)
  }

  function PointsFields(pts: seq<Point>, remap: seq<int>, round: real -> int, unset: (real, real)): seq<Field>
    requires ViewsIn(|remap|, pts)
  {
    if |pts| == 0 then [] else PointFields(pts[0], remap, round, unset) + PointsFields(pts[1..], remap, round, unset)
  }

  /** The version line `WriteBundleFile` writes. */
  const Version3Line: string := HashHeader + "0.3"

  /** The file `WriteBundleFile` writes. */
  function BundleWritten(cams: seq<CameraRecord>, pts: seq<Point>, round: real -> int, unset: (real, real)): BundleText
    requires forall i :: 0 <= i < |cams| ==> Writable(cams[i])
    requires ViewsIn(|cams|, pts)
  {
    BundleText(Version3Line,
      [Int(CountGood(cams)), Int(|pts|)] + CamerasFields(cams) + PointsFields(pts, Remaps(cams), round, unset))
  }

  /** `WriteBundleFile`: the version line, the counts, the reconstructed
      cameras, and every point with its views renumbered by `remap`.  The
      file is always version 0.3. */
  method WriteBundleFile(cams: seq<CameraRecord>, pts: seq<Point>, round: real -> int, unset: (real, real))
    returns (out: BundleText)
    requires forall i :: 0 <= i < |cams| ==> Writable(cams[i])
    requires ViewsIn(|cams|, pts)
    ensures out == BundleWritten(cams, pts, round, unset)
  {
    var remap, numGood := Remap(cams);
    var camFields := WriteCameras(cams);
    var pointFields := WritePoints(remap, pts, round, unset);
    out := BundleText(HashHeader + "0.3", [Int(numGood), Int(|pts|)] + camFields + pointFields);
  }

  /** The camera loop of `WriteBundleFile`. */
  method WriteCameras(cams: seq<CameraRecord>) returns (fields: seq<Field>)
    ensures fields == CamerasFields(cams)
  {
    fields := [];
    var rest := cams;
    NoPrefix(CamerasFields(cams));
    while |rest| > 0
      invariant fields + CamerasFields(rest) == CamerasFields(cams)
      decreases |rest|
    {
      var c := rest[0];
      if c.f != 0.0 {
        Snoc2(fields, CameraFields(c), CamerasFields(rest[1..]));
        fields := fields + ([Real(c.f), Real(0.0), Real(0.0)] + RealFields(c.R) + RealFields(c.t));
      }
      rest := rest[1..];
    }
    assert fields + [] == fields;
  }

  lemma Snoc2<T>(xs: seq<T>, ys: seq<T>, zs: seq<T>)
    ensures xs + (ys + zs) == (xs + ys) + zs
  {
  }

  /** The point loop of `WriteBundleFile`. */
  method WritePoints(remap: array<int>, pts: seq<Point>, round: real -> int, unset: (real, real)) returns (fields: seq<Field>)
    requires ViewsIn(remap.Length, pts)
    ensures fields == PointsFields(pts, remap[..], round, unset)
  {
    fields := [];
    var rest := pts;
    NoPrefix(PointsFields(pts, remap[..], round, unset));
    while |rest| > 0
      invariant ViewsIn(remap.Length, rest)
      invariant fields + PointsFields(rest, remap[..], round, unset) == PointsFields(pts, remap[..], round, unset)
      decreases |rest|
    {
      var pt := rest[0];
      var viewFields := WriteViews(remap, pt.views, unset);
      Snoc2(fields, PointFields(pt, remap[..], round, unset), PointsFields(rest[1..], remap[..], round, unset));
      fields := fields + ([Real(pt.pos.x), Real(pt.pos.y), Real(pt.pos.z),
                           Int(round(pt.color.x)), Int(round(pt.color.y)), Int(round(pt.color.z)), Int(|pt.views|)]
                          + viewFields);
      rest := rest[1..];
    }
    assert fields + [] == fields;
  }

  /** The view loop of `WriteBundleFile`. */
  method WriteViews(remap: array<int>, views: seq<ViewRecord>, unset: (real, real)) returns (fields: seq<Field>)
    requires ViewsOf(remap.Length, views)
    ensures fields == ViewsFields(views, remap[..], unset)
  {
    fields := [];
    var rest := views;
    NoPrefix(ViewsFields(views, remap[..], unset));
    while |rest| > 0
      invariant ViewsOf(remap.Length, rest)
      invariant fields + ViewsFields(rest, remap[..], unset) == ViewsFields(views, remap[..], unset)
      decreases |rest|
    {
      var v := rest[0];
      var (x, y) := if v.xy.Some? then v.xy.value else unset;
      Snoc2(fields, ViewFields(v, remap[..], unset), ViewsFields(rest[1..], remap[..], unset));
      fields := fields + [Int(remap[v.image]), Int(v.key), Real(x), Real(y)];
      rest := rest[1..];
    }
    assert fields + [] == fields;
  }

  // ---------------------------------------------------------------------
  // Reading back what was written

  /** The reconstructed cameras as a reader sees them in the written file:
      the distortion parameters are printed as zero. */
  function GoodCameras(cams: seq<CameraRecord>): seq<CameraRecord>
  {
    if |cams| == 0 then []
    else (if Good(cams[0]) then [Written(cams[0])] else [])
         + GoodCameras(cams[1..])
  }

  /** The views as a reader sees them: renumbered, with a position. */
  function ReadBackViews(views: seq<ViewRecord>, remap: seq<int>, unset: (real, real)): (vs: seq<ViewRecord>)
    requires ViewsOf(|remap|, views)
    ensures |vs| == |views|
  {
    if |views| == 0 then []
    else [ViewRecord(remap[views[0].image], views[0].key, Some(XY(views[0], unset)))]
         + ReadBackViews(views[1..], remap, unset)
  }

  /** A point as a reader sees it: the colour rounded, the views read back. */
  function ReadBackPoint(pt: Point, remap: seq<int>, round: real -> int, unset: (real, real)): PointRecord
    requires ViewsOf(|remap|, pt.views)
  {
    PointRecord(pt.pos, Vec3(round(pt.color.x) as real, round(pt.color.y) as real, round(pt.color.z) as real),
                |pt.views|, ReadBackViews(pt.views, remap, unset))
  }

  function ReadBackPoints(pts: seq<Point>, remap: seq<int>, round: real -> int, unset: (real, real)): (rs: seq<PointRecord>)
    requires ViewsIn(|remap|, pts)
    ensures |rs| == |pts|
  {
    if |pts| == 0 then [] else [ReadBackPoint(pts[0], remap, round, unset)] + ReadBackPoints(pts[1..], remap, round, unset)
  }

  /** The numbers `xs` stand at `p` in `fs`. */
  predicate FieldsAt(fs: seq<Field>, p: nat, xs: seq<Field>)
  {
    p + |xs| <= |fs| && fs[p..p + |xs|] == xs
  }

  lemma FieldsAtSplit(fs: seq<Field>, p: nat, a: seq<Field>, b: seq<Field>)
    requires FieldsAt(fs, p, a + b)
    ensures FieldsAt(fs, p, a) && FieldsAt(fs, p + |a|, b)
  {
    assert fs[p..p + |a|] == fs[p..p + |a + b|][..|a|];
    assert fs[p + |a|..p + |a| + |b|] == fs[p..p + |a + b|][|a|..];
  }

  lemma FieldsAtConcat(pre: seq<Field>, xs: seq<Field>, post: seq<Field>)
    ensures FieldsAt(pre + xs + post, |pre|, xs)
  {
    assert (pre + xs + post)[|pre|..|pre| + |xs|] == xs;
  }

  lemma ReadsOfRealFields(rs: seq<real>)
    ensures Reals(RealFields(rs)) == rs
  {
  }

  lemma ReadWrittenCamera(fs: seq<Field>, p: nat, c: CameraRecord)
    requires Writable(c) && FieldsAt(fs, p, CameraFields(c))
    ensures CameraReader(fs, 0.3)(p) == Some((Written(c), p + 15))
  {
    var cf := CameraFields(c);
    assert fs[p + 3..p + 12] == cf[3..12] == RealFields(c.R);
    assert fs[p + 12..p + 15] == cf[12..15] == RealFields(c.t);
    assert fs[p] == cf[0] && fs[p + 1] == cf[1] && fs[p + 2] == cf[2];
    ReadsOfRealFields(c.R);
    ReadsOfRealFields(c.t);
  }

  lemma {:induction false} CountGoodFront(cams: seq<CameraRecord>)
    requires |cams| > 0
    ensures CountGood(cams) == (if Good(cams[0]) then 1 else 0) + CountGood(cams[1..])
    decreases |cams|
  {
    if |cams| > 1 {
      CountGoodFront(cams[..|cams| - 1]);
      assert cams[..|cams| - 1][1..] == cams[1..][..|cams[1..]| - 1];
    }
  }

  /** The camera the reader sees for a reconstructed camera. */
  function Written(c: CameraRecord): CameraRecord
  {
    CameraRecord(c.f, Some((0.0, 0.0)), c.R, c.t)
  }

  /** A reader that reads every reconstructed camera written at any
      position back as the camera the reader sees. */
  ghost predicate ReadsCameras(read: nat -> Option<(CameraRecord, nat)>, fs: seq<Field>)
  {
    forall q: nat, c: CameraRecord {:trigger FieldsAt(fs, q, CameraFields(c))} ::
      Writable(c) && FieldsAt(fs, q, CameraFields(c)) ==> read(q) == Some((Written(c), q + 15))
  }

  /** The version 0.3 camera reader is such a reader. */
  lemma CameraReaderReadsCameras(fs: seq<Field>)
    ensures ReadsCameras(CameraReader(fs, 0.3), fs)
  {
    forall q: nat, c: CameraRecord | Writable(c) && FieldsAt(fs, q, CameraFields(c))
      ensures CameraReader(fs, 0.3)(q) == Some((Written(c), q + 15))
    {
      ReadWrittenCamera(fs, q, c);
    }
  }

  /** One camera of the block: a reconstructed one stands first, and the
      rest of the block follows it; a skipped one leaves the block as it is. */
  lemma CamerasStep(fs: seq<Field>, p: nat, cams: seq<CameraRecord>)
    requires |cams| > 0 && Writable(cams[0])
    requires FieldsAt(fs, p, CamerasFields(cams))
    ensures Good(cams[0]) ==> GoodCameras(cams) == [Written(cams[0])] + GoodCameras(cams[1..])
    ensures Good(cams[0]) ==> FieldsAt(fs, p, CameraFields(cams[0]))
    ensures !Good(cams[0]) ==> GoodCameras(cams) == GoodCameras(cams[1..])
    ensures var e := if Good(cams[0]) then p + 15 else p;
            && FieldsAt(fs, e, CamerasFields(cams[1..]))
            && e + |CamerasFields(cams[1..])| == p + |CamerasFields(cams)|
  {
    var c := cams[0];
    if Good(c) {
      assert CamerasFields(cams) == CameraFields(c) + CamerasFields(cams[1..]);
      FieldsAtSplit(fs, p, CameraFields(c), CamerasFields(cams[1..]));
    } else {
      assert CamerasFields(cams) == CamerasFields(cams[1..]);
      assert GoodCameras(cams) == [] + GoodCameras(cams[1..]);
    }
  }

  /** A reconstructed camera at the head of the block read back, given
      that the rest of the block reads back after it. */
  lemma CamerasBackStep(read: nat -> Option<(CameraRecord, nat)>, fs: seq<Field>, p: nat, cams: seq<CameraRecord>)
    requires ReadsCameras(read, fs)
    requires |cams| > 0 && Writable(cams[0]) && Good(cams[0]) && FieldsAt(fs, p, CameraFields(cams[0]))
    requires GoodCameras(cams) == [Written(cams[0])] + GoodCameras(cams[1..])
    requires Repeat(read, p + 15, |GoodCameras(cams[1..])|) == Some((GoodCameras(cams[1..]), p + |CamerasFields(cams)|))
    ensures Repeat(read, p, |GoodCameras(cams)|) == Some((GoodCameras(cams), p + |CamerasFields(cams)|))
  {
    assert read(p) == Some((Written(cams[0]), p + 15));
    assert Pred(|GoodCameras(cams)|) == |GoodCameras(cams[1..])|;
    RepeatCons(read, p, |GoodCameras(cams)|, Written(cams[0]), p + 15, GoodCameras(cams[1..]), p + |CamerasFields(cams)|);
  }

  /** Any reader of written cameras reads the camera block back as the
      reconstructed cameras. */
  lemma {:induction false} ReadCamerasBack(read: nat -> Option<(CameraRecord, nat)>, fs: seq<Field>, p: nat, cams: seq<CameraRecord>)
    requires ReadsCameras(read, fs)
    requires forall i :: 0 <= i < |cams| ==> Writable(cams[i])
    requires FieldsAt(fs, p, CamerasFields(cams))
    ensures Repeat(read, p, |GoodCameras(cams)|) == Some((GoodCameras(cams), p + |CamerasFields(cams)|))
    decreases |cams|
  {
    if |cams| > 0 {
      CamerasStep(fs, p, cams);
      if Good(cams[0]) {
        ReadCamerasBack(read, fs, p + 15, cams[1..]);
        CamerasBackStep(read, fs, p, cams);
      } else {
        ReadCamerasBack(read, fs, p, cams[1..]);
      }
    }
  }

  /** The camera block reads back as the reconstructed cameras. */
  lemma ReadWrittenCameras(fs: seq<Field>, p: nat, cams: seq<CameraRecord>)
    requires forall i :: 0 <= i < |cams| ==> Writable(cams[i])
    requires FieldsAt(fs, p, CamerasFields(cams))
    ensures Repeat(CameraReader(fs, 0.3), p, CountGood(cams)) == Some((GoodCameras(cams), p + |CamerasFields(cams)|))
  {
    CameraReaderReadsCameras(fs);
    ReadCamerasBack(CameraReader(fs, 0.3), fs, p, cams);
    GoodCamerasCount(cams);
  }

  /** As many cameras are read back as were counted reconstructed. */
  lemma {:induction false} GoodCamerasCount(cams: seq<CameraRecord>)
    ensures |GoodCameras(cams)| == CountGood(cams)
    decreases |cams|
  {
    if |cams| > 0 {
      CountGoodFront(cams);
      GoodCamerasCount(cams[1..]);
    }
  }

  lemma ReadWrittenView(fs: seq<Field>, p: nat, v: ViewRecord, remap: seq<int>, unset: (real, real))
    requires 0 <= v.image < |remap| && FieldsAt(fs, p, ViewFields(v, remap, unset))
    ensures ViewReader(fs, 0.3)(p) == Some((ViewRecord(remap[v.image], v.key, Some(XY(v, unset))), p + 4))
  {
    var vf := ViewFields(v, remap, unset);
    assert fs[p] == vf[0] && fs[p + 1] == vf[1] && fs[p + 2] == vf[2] && fs[p + 3] == vf[3];
  }

  lemma {:induction false} ReadWrittenViews(fs: seq<Field>, p: nat, views: seq<ViewRecord>, remap: seq<int>, unset: (real, real))
    requires ViewsOf(|remap|, views)
    requires FieldsAt(fs, p, ViewsFields(views, remap, unset))
    ensures Repeat(ViewReader(fs, 0.3), p, |views|) == Some((ReadBackViews(views, remap, unset), p + |ViewsFields(views, remap, unset)|))
    decreases |views|
  {
    if |views| > 0 {
      var v := views[0];
      FieldsAtSplit(fs, p, ViewFields(v, remap, unset), ViewsFields(views[1..], remap, unset));
      ReadWrittenView(fs, p, v, remap, unset);
      ReadWrittenViews(fs, p + 4, views[1..], remap, unset);
    }
  }

  lemma ReadWrittenPoint(fs: seq<Field>, p: nat, pt: Point, remap: seq<int>, round: real -> int, unset: (real, real))
    requires ViewsOf(|remap|, pt.views)
    requires FieldsAt(fs, p, PointFields(pt, remap, round, unset))
    ensures PointReader(fs, 0.3)(p) == Some((ReadBackPoint(pt, remap, round, unset), p + |PointFields(pt, remap, round, unset)|))
  {
    var head := [Real(pt.pos.x), Real(pt.pos.y), Real(pt.pos.z),
                 Int(round(pt.color.x)), Int(round(pt.color.y)), Int(round(pt.color.z)), Int(|pt.views|)];
    FieldsAtSplit(fs, p, head, ViewsFields(pt.views, remap, unset));
    assert fs[p..p + 7] == head;
    assert fs[p] == head[0] && fs[p + 1] == head[1] && fs[p + 2] == head[2];
    assert fs[p + 3] == head[3] && fs[p + 4] == head[4] && fs[p + 5] == head[5] && fs[p + 6] == head[6];
    ReadWrittenViews(fs, p + 7, pt.views, remap, unset);
  }

  /** A reader that reads every point written at any position back as
      the point the reader sees. */
  ghost predicate ReadsPoints(read: nat -> Option<(PointRecord, nat)>, fs: seq<Field>, remap: seq<int>, round: real -> int, unset: (real, real))
  {
    forall q: nat, pt: Point {:trigger FieldsAt(fs, q, PointFields(pt, remap, round, unset))} ::
      ViewsOf(|remap|, pt.views) && FieldsAt(fs, q, PointFields(pt, remap, round, unset)) ==>
        read(q) == Some((ReadBackPoint(pt, remap, round, unset), q + |PointFields(pt, remap, round, unset)|))
  }

  /** The version 0.3 point reader is such a reader. */
  lemma PointReaderReadsPoints(fs: seq<Field>, remap: seq<int>, round: real -> int, unset: (real, real))
    ensures ReadsPoints(PointReader(fs, 0.3), fs, remap, round, unset)
  {
    forall q: nat, pt: Point | ViewsOf(|remap|, pt.views) && FieldsAt(fs, q, PointFields(pt, remap, round, unset))
      ensures PointReader(fs, 0.3)(q) == Some((ReadBackPoint(pt, remap, round, unset), q + |PointFields(pt, remap, round, unset)|))
    {
      ReadWrittenPoint(fs, q, pt, remap, round, unset);
    }
  }

  /** The first point's numbers and record, before the rest. */
  lemma PointsFront(pts: seq<Point>, remap: seq<int>, round: real -> int, unset: (real, real))
    requires |pts| > 0 && ViewsIn(|remap|, pts)
    ensures ViewsOf(|remap|, pts[0].views) && ViewsIn(|remap|, pts[1..])
    ensures PointsFields(pts, remap, round, unset) == PointFields(pts[0], remap, round, unset) + PointsFields(pts[1..], remap, round, unset)
    ensures ReadBackPoints(pts, remap, round, unset) == [ReadBackPoint(pts[0], remap, round, unset)] + ReadBackPoints(pts[1..], remap, round, unset)
  {
    assert ViewsOf(|remap|, pts[0].views);
  }

  /** Any reader of written points reads the point block back as the
      points written, in order. */
  lemma {:induction false} ReadPointsBack(read: nat -> Option<(PointRecord, nat)>, fs: seq<Field>, p: nat, pts: seq<Point>,
                                          remap: seq<int>, round: real -> int, unset: (real, real))
    requires ReadsPoints(read, fs, remap, round, unset)
    requires ViewsIn(|remap|, pts)
    requires FieldsAt(fs, p, PointsFields(pts, remap, round, unset))
    ensures Repeat(read, p, |pts|) == Some((ReadBackPoints(pts, remap, round, unset), p + |PointsFields(pts, remap, round, unset)|))
    decreases |pts|
  {
    if |pts| > 0 {
      PointsFront(pts, remap, round, unset);
      var pf := PointFields(pts[0], remap, round, unset);
      FieldsAtSplit(fs, p, pf, PointsFields(pts[1..], remap, round, unset));
      var e := p + |pf|;
      assert read(p) == Some((ReadBackPoint(pts[0], remap, round, unset), e));
      ReadPointsBack(read, fs, e, pts[1..], remap, round, unset);
      assert Pred(|pts|) == |pts[1..]|;
      RepeatCons(read, p, |pts|, ReadBackPoint(pts[0], remap, round, unset), e,
                 ReadBackPoints(pts[1..], remap, round, unset), p + |PointsFields(pts, remap, round, unset)|);
    }
  }

  /** The point block reads back as the points written, in order. */
  lemma ReadWrittenPoints(fs: seq<Field>, p: nat, pts: seq<Point>, remap: seq<int>, round: real -> int, unset: (real, real))
    requires ViewsIn(|remap|, pts)
    requires FieldsAt(fs, p, PointsFields(pts, remap, round, unset))
    ensures Repeat(PointReader(fs, 0.3), p, |pts|)
              == Some((ReadBackPoints(pts, remap, round, unset), p + |PointsFields(pts, remap, round, unset)|))
  {
    PointReaderReadsPoints(fs, remap, round, unset);
    ReadPointsBack(PointReader(fs, 0.3), fs, p, pts, remap, round, unset);
  }

  /** A version 0.3 header line followed by two counts reads back as
      version 0.3 with those counts. */
  lemma WrittenHeader(b: BundleText, m: int, n: int, scanReal: string -> Option<real>, scanCounts: string -> Option<(int, int)>)
    requires scanReal("0.3") == Some(0.3)
    requires b.firstLine == Version3Line && |b.fields| >= 2 && b.fields[0] == Int(m) && b.fields[1] == Int(n)
    ensures ReadHeader(b, scanReal, scanCounts) == Some(Header(0.3, m, n, 2))
  {
    assert Version3Line[|HashHeader|..] == "0.3";
  }

  /** Reading the file `WriteBundleFile` wrote (given that `%lf` scans
      "0.3" as 0.3) gives the reconstructed cameras in order, with zero
      distortion, and the points that have a view, their colours rounded
      and their views renumbered by `remap`. */
  lemma {:induction false} BundleRoundTrip(cams: seq<CameraRecord>, pts: seq<Point>, round: real -> int, unset: (real, real),
                                          scanReal: string -> Option<real>, scanCounts: string -> Option<(int, int)>)
    requires scanReal("0.3") == Some(0.3)
    requires forall i :: 0 <= i < |cams| ==> Writable(cams[i])
    requires ViewsIn(|cams|, pts)
    ensures ReadBundle(Some(BundleWritten(cams, pts, round, unset)), scanReal, scanCounts)
              == Some((GoodCameras(cams), KeptPoints(ReadBackPoints(pts, Remaps(cams), round, unset), 0.3)))
  {
    var b := BundleWritten(cams, pts, round, unset);
    WrittenLayout(cams, pts, round, unset);
    WrittenHeader(b, CountGood(cams), |pts|, scanReal, scanCounts);
    ReadLaidOut(b, cams, pts, Remaps(cams), round, unset, scanReal, scanCounts);
  }

  /** Any file laid out as `WriteBundleFile` lays it out, whatever the
      renumbering of the views, reads back as the reconstructed cameras and
      the points with a view. */
  lemma ReadLaidOut(b: BundleText, cams: seq<CameraRecord>, pts: seq<Point>, remap: seq<int>, round: real -> int, unset: (real, real),
                    scanReal: string -> Option<real>, scanCounts: string -> Option<(int, int)>)
    requires forall i :: 0 <= i < |cams| ==> Writable(cams[i])
    requires ViewsIn(|remap|, pts)
    requires ReadHeader(b, scanReal, scanCounts) == Some(Header(0.3, CountGood(cams), |pts|, 2))
    requires FieldsAt(b.fields, 2, CamerasFields(cams))
    requires FieldsAt(b.fields, 2 + |CamerasFields(cams)|, PointsFields(pts, remap, round, unset))
    ensures ReadBundle(Some(b), scanReal, scanCounts)
              == Some((GoodCameras(cams), KeptPoints(ReadBackPoints(pts, remap, round, unset), 0.3)))
  {
    var cf := CamerasFields(cams);
    var pf := PointsFields(pts, remap, round, unset);
    ReadWrittenCameras(b.fields, 2, cams);
    ReadWrittenPoints(b.fields, 2 + |cf|, pts, remap, round, unset);
    ReadBundleOf(b, scanReal, scanCounts, CountGood(cams), |pts|, GoodCameras(cams), 2 + |cf|,
                 ReadBackPoints(pts, remap, round, unset), 2 + |cf| + |pf|);
  }

  /** Where the counts and the two blocks stand in the written file. */
  lemma WrittenLayout(cams: seq<CameraRecord>, pts: seq<Point>, round: real -> int, unset: (real, real))
    requires forall i :: 0 <= i < |cams| ==> Writable(cams[i])
    requires ViewsIn(|cams|, pts)
    ensures BundleWritten(cams, pts, round, unset).firstLine == Version3Line
    ensures var fs := BundleWritten(cams, pts, round, unset).fields;
            var cf := CamerasFields(cams);
            && |fs| >= 2 && fs[0] == Int(CountGood(cams)) && fs[1] == Int(|pts|)
            && FieldsAt(fs, 2, cf) && FieldsAt(fs, 2 + |cf|, PointsFields(pts, Remaps(cams), round, unset))
  {
    var fs := BundleWritten(cams, pts, round, unset).fields;
    var cf := CamerasFields(cams);
    var pf := PointsFields(pts, Remaps(cams), round, unset);
    FieldsAtConcat([Int(CountGood(cams)), Int(|pts|)], cf, pf);
    FieldsAtConcat([Int(CountGood(cams)), Int(|pts|)] + cf, pf, []);
    assert fs + [] == fs;
  }

  /** A version 0.3 file whose header, camera block and point block read
      as given reads as those cameras and the points of that block with a
      view. */
  lemma ReadBundleOf(b: BundleText, scanReal: string -> Option<real>, scanCounts: string -> Option<(int, int)>,
                     m: int, n: int, cams: seq<CameraRecord>, q: nat, pts: seq<PointRecord>, e: nat)
    requires ReadHeader(b, scanReal, scanCounts) == Some(Header(0.3, m, n, 2))
    requires Repeat(CameraReader(b.fields, 0.3), 2, m) == Some((cams, q))
    requires Repeat(PointReader(b.fields, 0.3), q, n) == Some((pts, e))
    ensures ReadBundle(Some(b), scanReal, scanCounts) == Some((cams, KeptPoints(pts, 0.3)))
  {
  }


  // ---------------------------------------------------------------------
  // Undistortion jobs and the new list file

  /** The undistorted image's name: the last three characters of the input
      name are replaced by `rd.jpg`.  A name shorter than three characters
      makes the unsigned length wrap around, and `substr` then keeps the
      whole name. */
  function RdName(name: string): (out: string)
    ensures |name| >= 3 ==> |out| == |name| + 3 && out[..|name| - 3] == name[..|name| - 3]
    ensures |name| < 3 ==> |out| == |name| + 6 && out[..|name|] == name
    ensures |out| >= 6 && out[|out| - 6..] == "rd.jpg"
  {
    (if |name| >= 3 then name[..|name| - 3] else name) + "rd.jpg"
  }

  /** A `.jpg` name becomes its `.rd.jpg` name. */
  lemma RdNameOfJpg(stem: string)
    ensures RdName(stem + ".jpg") == stem + ".rd.jpg"
  {
    assert (stem + ".jpg")[..|stem| + 1] == stem + ".";
  }

  /** One call of `UndistortImage`: the input image, its camera and the
      output name. */
  datatype Job = Job(input: string, camera: CameraRecord, output: string)

  /** The jobs of `UndistortImages` for the first images: one per
      reconstructed camera, in order. */
  function Jobs(files: seq<string>, cams: seq<CameraRecord>): seq<Job>
    requires |files| == |cams|
  {
    if |files| == 0 then []
    else
      var n := |files| - 1;
      Jobs(files[..n], cams[..n]) + (if Good(cams[n]) then [Job(files[n], cams[n], RdName(files[n]))] else [])
  }

  /** `UndistortImages`: every image whose camera was reconstructed is
      undistorted into its `rd.jpg` name; the others are skipped. */
  method UndistortImages(files: seq<string>, cams: seq<CameraRecord>) returns (jobs: seq<Job>)
    requires |files| == |cams|
    ensures jobs == Jobs(files, cams)
  {
    jobs := [];
    var i := 0;
    while i < |files|
      invariant 0 <= i <= |files|
      invariant jobs == Jobs(files[..i], cams[..i])
    {
      assert files[..i + 1][..i] == files[..i] && cams[..i + 1][..i] == cams[..i];
      if cams[i].f != 0.0 {
        jobs := jobs + [Job(files[i], cams[i], RdName(files[i]))];
      }
      i := i + 1;
    }
    assert files[..i] == files && cams[..i] == cams;
  }

  /** The jobs are exactly the images with a reconstructed camera: as many
      as `WriteBundleFile` counts, each with a nonzero focal length and
      named by `RdName`. */
  lemma {:induction false} JobsAreGood(files: seq<string>, cams: seq<CameraRecord>)
    requires |files| == |cams|
    ensures |Jobs(files, cams)| == CountGood(cams)
    ensures forall j :: j in Jobs(files, cams) ==> Good(j.camera) && j.output == RdName(j.input)
    decreases |files|
  {
    if |files| > 0 {
      var n := |files| - 1;
      JobsAreGood(files[..n], cams[..n]);
    }
  }

  /** The names `list.rd.txt` holds: those of the images with a
      reconstructed camera, in order. */
  function GoodNames(files: seq<string>, cams: seq<CameraRecord>): (names: seq<string>)
    requires |files| <= |cams|
  {
    if |files| == 0 then []
    else
      var n := |files| - 1;
      GoodNames(files[..n], cams) + (if Good(cams[n]) then [files[n]] else [])
  }

  /** `list.rd.txt` names exactly the images that are undistorted. */
  lemma {:induction false} ListedAreUndistorted(files: seq<string>, cams: seq<CameraRecord>)
    requires |files| == |cams|
    ensures |GoodNames(files, cams)| == |Jobs(files, cams)|
    ensures forall i :: 0 <= i < |GoodNames(files, cams)| ==> GoodNames(files, cams)[i] == Jobs(files, cams)[i].input
    decreases |files|
  {
    if |files| > 0 {
      var n := |files| - 1;
      GoodNamesCameras(files[..n], cams, cams[..n]);
      ListedAreUndistorted(files[..n], cams[..n]);
    }
  }

  /** `GoodNames` looks only at the cameras of the images it is given. */
  lemma {:induction false} GoodNamesCameras(files: seq<string>, c1: seq<CameraRecord>, c2: seq<CameraRecord>)
    requires |files| <= |c1| && |files| <= |c2|
    requires forall i :: 0 <= i < |files| ==> c1[i] == c2[i]
    ensures GoodNames(files, c1) == GoodNames(files, c2)
    decreases |files|
  {
    if |files| > 0 {
      GoodNamesCameras(files[..|files| - 1], c1, c2);
    }
  }

  lemma {:induction false} ListTextSnoc(names: seq<string>, name: string)
    ensures ListText(names + [name]) == ListText(names) + name + "\n"
    decreases |names|
  {
    if |names| > 0 {
      assert (names + [name])[1..] == names[1..] + [name];
      ListTextSnoc(names[1..], name);
    } else {
      assert names + [name] == [name];
    }
  }

  /** `WriteNewFiles`: `list.rd.txt` lists the images with a reconstructed
      camera, and `bundle.rd.out` is written by `WriteBundleFile`. */
  method WriteNewFiles(files: seq<string>, cams: seq<CameraRecord>, pts: seq<Point>, round: real -> int, unset: (real, real))
    returns (list: string, bundle: BundleText)
    requires |files| <= |cams|
    requires forall i :: 0 <= i < |cams| ==> Writable(cams[i])
    requires ViewsIn(|cams|, pts)
    ensures list == ListText(GoodNames(files, cams))
    ensures bundle == BundleWritten(cams, pts, round, unset)
  {
    list := "";
    var i := 0;
    while i < |files|
      invariant 0 <= i <= |files|
      invariant list == ListText(GoodNames(files[..i], cams))
    {
      assert files[..i + 1][..i] == files[..i];
      if cams[i].f != 0.0 {
        assert GoodNames(files[..i + 1], cams) == GoodNames(files[..i], cams) + [files[i]];
        ListTextSnoc(GoodNames(files[..i], cams), files[i]);
        list := list + files[i] + "\n";
      } else {
        assert GoodNames(files[..i + 1], cams) == GoodNames(files[..i], cams) + [];
        assert GoodNames(files[..i], cams) + [] == GoodNames(files[..i], cams);
      }
      i := i + 1;
    }
    assert files[..i] == files;
    bundle := WriteBundleFile(cams, pts, round, unset);
  }

  /** What `WriteNewFiles` lists reads back, for names the list reader
      keeps whole, as the names of the images with a reconstructed camera. */
  lemma NewListRoundTrip(files: seq<string>, cams: seq<CameraRecord>)
    requires |files| <= |cams|
    requires forall i :: 0 <= i < |files| ==> ListableName(files[i])
    ensures ListEntries(ListText(GoodNames(files, cams))) == GoodNames(files, cams)
  {
    GoodNamesListable(files, cams);
    ListRoundTrip(GoodNames(files, cams));
  }

  lemma {:induction false} GoodNamesListable(files: seq<string>, cams: seq<CameraRecord>)
    requires |files| <= |cams|
    requires forall i :: 0 <= i < |files| ==> ListableName(files[i])
    ensures forall i :: 0 <= i < |GoodNames(files, cams)| ==> ListableName(GoodNames(files, cams)[i])
    decreases |files|
  {
    if |files| > 0 {
      GoodNamesListable(files[..|files| - 1], cams);
    }
  }
}
