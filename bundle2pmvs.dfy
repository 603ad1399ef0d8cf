/** Bundler's `Bundle2PMVS` tool: it reads the image list and a bundle
    file and writes, for every reconstructed camera in order, a numbered
    `CONTOUR` file holding the camera's 3x4 projection matrix, together
    with the `prep_pmvs.sh` script that undistorts the images (by calling
    `RadialUndistort`) and copies them under the same numbers. */
module Bundle2Pmvs {
  import opened Wrappers
  import opened Math3D
  import opened BundleFiles
  import RadialUndistort
  import Config

  // ---------------------------------------------------------------------
  // Reading the bundle file

  /** `point_t` of this tool: position and colour only. */
  datatype PmvsPoint = PmvsPoint(pos: Vec3, color: Vec3)

  /** A camera as this tool keeps it: the distortion parameters are read
      and dropped. */
  function Kept(c: CameraRecord): (k: CameraRecord)
    ensures k.f == c.f && k.R == c.R && k.t == c.t && k.k.None?
  {
    c.(k := None)
  }

  function KeptCameras(recs: seq<CameraRecord>): (cams: seq<CameraRecord>)
    ensures |cams| == |recs|
  {
    if |recs| == 0 then [] else KeptCameras(recs[..|recs| - 1]) + [Kept(recs[|recs| - 1])]
  }

  /** The points kept: those seen by at least one camera, in order, with
      their position as read. */
  function SeenPoints(recs: seq<PointRecord>): (pts: seq<PmvsPoint>)
    ensures |pts| <= |recs|
  {
    if |recs| == 0 then []
    else
      var last := recs[|recs| - 1];
      SeenPoints(recs[..|recs| - 1]) + (if last.numVisible > 0 then [PmvsPoint(last.pos, last.color)] else [])
  }

  /** What `ReadBundleFile` leaves: the cameras, the points and the
      version, or `None` for a file whose header or numbers cannot be read
      as the version demands.  A file that cannot be opened leaves no
      cameras, no points and the version unset. */
  function ReadPmvsBundle(file: Option<BundleText>, scanReal: string -> Option<real>, scanCounts: string -> Option<(int, int)>)
    : Option<(seq<CameraRecord>, seq<PmvsPoint>, Option<real>)>
  {
    match file
    case None => Some(([], [], None))
    case Some(b) =>
      match ReadHeader(b, scanReal, scanCounts)
      case None => None
      case Some(h) =>
        match Repeat(CameraReader(b.fields, h.version), h.next, h.numImages)
        case None => None
        case Some((cams, q)) =>
          match Repeat(PointReader(b.fields, h.version), q, h.numPoints)
          case None => None
          case Some((pts, _)) => Some((KeptCameras(cams), SeenPoints(pts), Some(h.version)))
  }

  /** `ReadBundleFile` of `Bundle2PMVS`. */
  method ReadBundleFile(file: Option<BundleText>, scanReal: string -> Option<real>, scanCounts: string -> Option<(int, int)>)
    returns (r: Option<(seq<CameraRecord>, seq<PmvsPoint>, Option<real>)>)
    ensures r == ReadPmvsBundle(file, scanReal, scanCounts)
  {
    if file.None? {
      return Some(([], [], None));
    }
    var fs := file.value.fields;
    var header := ReadHeader(file.value, scanReal, scanCounts);
    if header.None? {
      return None;
    }
    var h := header.value;
    var cameras, pos := ReadCameras(fs, h.version, h.next, h.numImages);
    if cameras.None? {
      return None;
    }
    var points := ReadPoints(fs, h.version, pos, h.numPoints);
    if points.None? {
      return None;
    }
    return Some((cameras.value, points.value, Some(h.version)));
  }

  /** The camera loop of `ReadBundleFile`. */
  method ReadCameras(fs: seq<Field>, version: real, p: nat, n: int) returns (cameras: Option<seq<CameraRecord>>, pos: nat)
    ensures cameras.Some? <==> Repeat(CameraReader(fs, version), p, n).Some?
    ensures cameras.Some? ==> Repeat(CameraReader(fs, version), p, n).value.1 == pos
    ensures cameras.Some? ==> cameras.value == KeptCameras(Repeat(CameraReader(fs, version), p, n).value.0)
  {
    var cams: seq<CameraRecord> := [];
    ghost var recs: seq<CameraRecord> := [];
    pos := p;
    var left := n;
    PrefixedNothing(Repeat(CameraReader(fs, version), p, n));
    while left > 0
      invariant Prefixed(recs, Repeat(CameraReader(fs, version), pos, left)) == Repeat(CameraReader(fs, version), p, n)
      invariant cams == KeptCameras(recs)
      decreases left
    {
      var rec := ReadCamera(fs, pos, version);
      if rec.None? {
        return None, pos;
      }
      var c := rec.value.0;
      RepeatStep(CameraReader(fs, version), pos, left, recs);
      assert (recs + [c])[..|recs|] == recs;
      cams := cams + [CameraRecord(c.f, None, c.R, c.t)];
      recs := recs + [c];
      pos := rec.value.1;
      left := Pred(left);
    }
    assert recs + [] == recs;
    cameras := Some(cams);
  }

  /** The point loop of `ReadBundleFile`: the views are read and dropped. */
  method ReadPoints(fs: seq<Field>, version: real, p: nat, n: int) returns (points: Option<seq<PmvsPoint>>)
    ensures points.Some? <==> Repeat(PointReader(fs, version), p, n).Some?
    ensures points.Some? ==> points.value == SeenPoints(Repeat(PointReader(fs, version), p, n).value.0)
  {
    var pts: seq<PmvsPoint> := [];
    ghost var recs: seq<PointRecord> := [];
    var pos := p;
    var left := n;
    PrefixedNothing(Repeat(PointReader(fs, version), p, n));
    while left > 0
      invariant Prefixed(recs, Repeat(PointReader(fs, version), pos, left)) == Repeat(PointReader(fs, version), p, n)
      invariant pts == SeenPoints(recs)
      decreases left
    {
      var read := ReadPointAt(fs, pos, version);
      if read.None? {
        return None;
      }
      var rec := read.value.0;
      assert PointReader(fs, version)(pos) == read;
      RepeatStep(PointReader(fs, version), pos, left, recs);
      assert (recs + [rec])[..|recs|] == recs;
      if rec.numVisible > 0 {
        pts := pts + [PmvsPoint(rec.pos, rec.color)];
      }
      recs := recs + [rec];
      pos := read.value.1;
      left := Pred(left);
    }
    assert recs + [] == recs;
    points := Some(pts);
  }

  /** The points this tool keeps are those `RadialUndistort` keeps, with
      the position as read (that tool negates z before version 0.3). */
  lemma {:induction false} SeenPointsAreKept(recs: seq<PointRecord>, version: real)
    ensures |SeenPoints(recs)| == |RadialUndistort.KeptPoints(recs, version)|
    ensures forall i :: 0 <= i < |SeenPoints(recs)| ==>
              var s := SeenPoints(recs)[i]; var k := RadialUndistort.KeptPoints(recs, version)[i];
              s.color == k.color && s.pos.x == k.pos.x && s.pos.y == k.pos.y
              && s.pos.z == (if version < 0.3 then -k.pos.z else k.pos.z)
    decreases |recs|
  {
    if |recs| > 0 {
      SeenPointsAreKept(recs[..|recs| - 1], version);
    }
  }

  /** Both tools accept the same bundle files and read the same cameras
      (this one without the distortion parameters) and the same points. */
  lemma SameBundleAsRadialUndistort(file: Option<BundleText>, scanReal: string -> Option<real>, scanCounts: string -> Option<(int, int)>)
    ensures ReadPmvsBundle(file, scanReal, scanCounts).Some? <==> RadialUndistort.ReadBundle(file, scanReal, scanCounts).Some?
    ensures ReadPmvsBundle(file, scanReal, scanCounts).Some? ==>
              ReadPmvsBundle(file, scanReal, scanCounts).value.0
                == KeptCameras(RadialUndistort.ReadBundle(file, scanReal, scanCounts).value.0)
    ensures ReadPmvsBundle(file, scanReal, scanCounts).Some? ==>
              |ReadPmvsBundle(file, scanReal, scanCounts).value.1| == |RadialUndistort.ReadBundle(file, scanReal, scanCounts).value.1|
  {
    match file
    case None =>
    case Some(b) =>
      match ReadHeader(b, scanReal, scanCounts)
      case None =>
      case Some(h) =>
        match Repeat(CameraReader(b.fields, h.version), h.next, h.numImages)
        case None =>
        case Some((cams, q)) =>
          match Repeat(PointReader(b.fields, h.version), q, h.numPoints)
          case None =>
          case Some((pts, _)) =>
            SeenPointsAreKept(pts, h.version);
  }

  // ---------------------------------------------------------------------
  // File names

  /** `%04d` of a count: its decimal digits, padded with zeros on the left
      to at least four. */
  function Pad4(n: nat): (s: string)
    ensures |s| >= 4 && forall i :: 0 <= i < |s| ==> '0' <= s[i] <= '9'
  {
    var d := Config.Decimal(n);
    if |d| >= 4 then d else Zeros(4 - |d|) + d
  }

  function Zeros(k: nat): (z: string)
    ensures |z| == k && forall i :: 0 <= i < k ==> z[i] == '0'
  {
    seq(k, _ => '0')
  }

  lemma {:induction false} ParseZeros(z: string)
    requires forall i :: 0 <= i < |z| ==> z[i] == '0'
    ensures Config.ParseDecimal(z) == 0
    decreases |z|
  {
    if |z| > 0 {
      ParseZeros(z[..|z| - 1]);
    }
  }

  /** Leading zeros do not change the number read. */
  lemma {:induction false} ParseLeadingZeros(z: string, s: string)
    requires forall i :: 0 <= i < |z| ==> z[i] == '0'
    ensures Config.ParseDecimal(z + s) == Config.ParseDecimal(s)
    decreases |s|
  {
    if |s| == 0 {
      assert z + s == z;
      ParseZeros(z);
    } else {
      assert (z + s)[..|z + s| - 1] == z + s[..|s| - 1];
      ParseLeadingZeros(z, s[..|s| - 1]);
    }
  }

  /** A `%04d` name reads back as its number. */
  lemma Pad4RoundTrip(n: nat)
    ensures Config.ParseDecimal(Pad4(n)) == n
  {
    var d := Config.Decimal(n);
    Config.DecimalRoundTrip(n);
    if |d| < 4 {
      ParseLeadingZeros(Zeros(4 - |d|), d);
    }
  }

  /** Different counts give different names. */
  lemma Pad4Injective(a: nat, b: nat)
    ensures Pad4(a) == Pad4(b) <==> a == b
  {
    Pad4RoundTrip(a);
    Pad4RoundTrip(b);
  }

  /** Below 10000 the name has exactly four digits. */
  lemma Pad4Length(n: nat)
    requires n < 10000
    ensures |Pad4(n)| == 4
  {
    Config.DecimalLength(n);
  }

  /** The index of the last `.` of a name. */
  function LastDot(name: string): (i: nat)
    requires '.' in name
    ensures i < |name| && name[i] == '.'
    ensures forall j :: i < j < |name| ==> name[j] != '.'
  {
    if name[|name| - 1] == '.' then |name| - 1
    else
      assert name == name[..|name| - 1] + [name[|name| - 1]];
      LastDot(name[..|name| - 1])
  }

  /** The image's basename: the name up to its last `.`, or the whole
      name when it has none (`rfind` gives `npos`, and `substr` then keeps
      everything). */
  function Basename(name: string): (b: string)
    ensures b <= name
    ensures '.' in name ==> |b| < |name| && name[|b|] == '.' && '.' !in name[|b| + 1..]
    ensures '.' !in name ==> b == name
  {
    if '.' in name then name[..LastDot(name)] else name
  }

  /** For a `.jpg` image, the script copies exactly the file
      `RadialUndistort` writes. */
  lemma CopiesUndistorted(stem: string)
    ensures Basename(stem + ".jpg") + ".rd.jpg" == RadialUndistort.RdName(stem + ".jpg")
  {
    var name := stem + ".jpg";
    assert name[|stem|] == '.';
    assert name[|stem| + 1..] == "jpg";
    assert |Basename(name)| == |stem|;
    RadialUndistort.RdNameOfJpg(stem);
  }

  // ---------------------------------------------------------------------
  // The projection matrix

  /** `K`, row by row, for an image `w` by `h` pixels. */
  function Intrinsics(f: real, w: int, h: int): (K: seq<real>)
    ensures |K| == 9
  {
    [-f, 0.0, 0.5 * w as real,
     0.0, f, 0.5 * h as real,
     0.0, 0.0, 1.0]
  }

  /** `[R | t]`, row by row. */
  function Extrinsics(c: CameraRecord): (Rt: seq<real>)
    requires RadialUndistort.Writable(c)
    ensures |Rt| == 12
  {
    [c.R[0], c.R[1], c.R[2], c.t[0],
     c.R[3], c.R[4], c.R[5], c.t[1],
     c.R[6], c.R[7], c.R[8], c.t[2]]
  }

  /** Entry `(r, c)` of the product of a 3x3 and a 3x4 matrix, both
      row by row. */
  function Entry(a: seq<real>, b: seq<real>, r: nat, c: nat): real
    requires |a| == 9 && |b| == 12 && r < 3 && c < 4
  {
    a[3 * r] * b[c] + a[3 * r + 1] * b[4 + c] + a[3 * r + 2] * b[8 + c]
  }

  /** `matrix_product` of a 3x3 and a 3x4 matrix, row by row. */
  function Product34(a: seq<real>, b: seq<real>): (m: seq<real>)
    requires |a| == 9 && |b| == 12
    ensures |m| == 12
  {
    [Entry(a, b, 0, 0), Entry(a, b, 0, 1), Entry(a, b, 0, 2), Entry(a, b, 0, 3),
     Entry(a, b, 1, 0), Entry(a, b, 1, 1), Entry(a, b, 1, 2), Entry(a, b, 1, 3),
     Entry(a, b, 2, 0), Entry(a, b, 2, 1), Entry(a, b, 2, 2), Entry(a, b, 2, 3)]
  }

  /** `P`: the product `K [R | t]` scaled by -1. */
  function Projection(c: CameraRecord, w: int, h: int): (P: seq<real>)
    requires RadialUndistort.Writable(c)
    ensures |P| == 12
  {
    var m := Product34(Intrinsics(c.f, w, h), Extrinsics(c));
    seq(12, i requires 0 <= i < 12 => -m[i])
  }

  /** A world point in camera coordinates, `R X + t`. */
  function CameraCoords(c: CameraRecord, X: Vec3): Vec3
    requires RadialUndistort.Writable(c)
  {
    Vec3(c.R[0] * X.x + c.R[1] * X.y + c.R[2] * X.z + c.t[0],
         c.R[3] * X.x + c.R[4] * X.y + c.R[5] * X.z + c.t[1],
         c.R[6] * X.x + c.R[7] * X.y + c.R[8] * X.z + c.t[2])
  }

  /** A 3x4 matrix applied to `(X, 1)`. */
  function Apply(P: seq<real>, X: Vec3): Vec3
    requires |P| == 12
  {
    Vec3(P[0] * X.x + P[1] * X.y + P[2] * X.z + P[3],
         P[4] * X.x + P[5] * X.y + P[6] * X.z + P[7],
         P[8] * X.x + P[9] * X.y + P[10] * X.z + P[11])
  }

  /** `P` takes a world point to its image point in homogeneous
      coordinates: with `c = R X + t`, the point `(f c.x - w/2 c.z,
      -(f c.y + h/2 c.z), -c.z)` (Bundler's camera looks down its -z axis). */
  lemma ProjectionMaps(c: CameraRecord, w: int, h: int, X: Vec3)
    requires RadialUndistort.Writable(c)
    ensures var q := CameraCoords(c, X);
            Apply(Projection(c, w, h), X)
              == Vec3(c.f * q.x - 0.5 * w as real * q.z, -(c.f * q.y + 0.5 * h as real * q.z), -q.z)
  {
    var K := Intrinsics(c.f, w, h);
    var Rt := Extrinsics(c);
    var q := CameraCoords(c, X);
    var A := Apply(Projection(c, w, h), X);
    RowApplied(K[0], K[1], K[2], Rt, X);
    RowApplied(K[3], K[4], K[5], Rt, X);
    RowApplied(K[6], K[7], K[8], Rt, X);
    assert A.x == -(K[0] * q.x + K[1] * q.y + K[2] * q.z);
    assert A.y == -(K[3] * q.x + K[4] * q.y + K[5] * q.z);
    assert A.z == -(K[6] * q.x + K[7] * q.y + K[8] * q.z);
  }

  /** One row `(k0, k1, k2)` of `K`, multiplied into `[R | t]`, negated and
      applied to `(X, 1)`, is the row applied to the camera coordinates. */
  lemma RowApplied(k0: real, k1: real, k2: real, Rt: seq<real>, X: Vec3)
    requires |Rt| == 12
    ensures -(k0 * Rt[0] + k1 * Rt[4] + k2 * Rt[8]) * X.x + -(k0 * Rt[1] + k1 * Rt[5] + k2 * Rt[9]) * X.y
            + -(k0 * Rt[2] + k1 * Rt[6] + k2 * Rt[10]) * X.z + -(k0 * Rt[3] + k1 * Rt[7] + k2 * Rt[11])
            == -(k0 * (Rt[0] * X.x + Rt[1] * X.y + Rt[2] * X.z + Rt[3])
                 + k1 * (Rt[4] * X.x + Rt[5] * X.y + Rt[6] * X.z + Rt[7])
                 + k2 * (Rt[8] * X.x + Rt[9] * X.y + Rt[10] * X.z + Rt[11]))
  {
  }

  // ---------------------------------------------------------------------
  // Writing the PMVS input

  /** A `%04d.txt` file: the `CONTOUR` line and the projection matrix, row
      by row. */
  datatype TxtFile = TxtFile(name: string, P: seq<real>)

  /** The images the cameras need: every reconstructed camera has a name
      in the list. */
  predicate Covered(images: seq<string>, cams: seq<CameraRecord>)
  {
    forall i :: 0 <= i < |cams| && RadialUndistort.Good(cams[i]) ==> i < |images|
  }

  predicate AllWritable(cams: seq<CameraRecord>)
  {
    forall i :: 0 <= i < |cams| ==> RadialUndistort.Writable(cams[i])
  }

  /** The file written for camera `i`, numbered `j`; `dims` gives the
      width and height of an image file. */
  function CameraTxt(images: seq<string>, cams: seq<CameraRecord>, dims: string -> (int, int), i: nat, j: nat): TxtFile
    requires i < |cams| && i < |images| && RadialUndistort.Writable(cams[i])
  {
    var (w, h) := dims(images[i]);
    TxtFile(TxtName(j), Projection(cams[i], w, h))
  }

  /** `%04d.txt`. */
  function TxtName(j: nat): string
  {
    Pad4(j) + ".txt"
  }

  /** The two script lines for camera `i`, numbered `j`. */
  function CameraLines(images: seq<string>, i: nat, j: nat): seq<string>
    requires i < |images|
  {
    ["cp " + Basename(images[i]) + ".rd.jpg pmvs/visualize/" + Pad4(j) + ".jpg",
     "mv " + TxtName(j) + " pmvs/txt/"]
  }

  /** The files written for the first `n` cameras: one per reconstructed
      camera, numbered as `RadialUndistort` renumbers it. */
  function Txts(images: seq<string>, cams: seq<CameraRecord>, dims: string -> (int, int), n: nat): seq<TxtFile>
    requires n <= |cams| && Covered(images, cams) && AllWritable(cams)
  {
    if n == 0 then []
    else
      Txts(images, cams, dims, n - 1)
      + (if RadialUndistort.Good(cams[n - 1]) then [CameraTxt(images, cams, dims, n - 1, RadialUndistort.RemapOf(cams, n - 1))] else [])
  }

  /** The copy lines for the first `n` cameras. */
  function Copies(images: seq<string>, cams: seq<CameraRecord>, n: nat): seq<string>
    requires n <= |cams| && Covered(images, cams)
  {
    if n == 0 then []
    else
      Copies(images, cams, n - 1)
      + (if RadialUndistort.Good(cams[n - 1]) then CameraLines(images, n - 1, RadialUndistort.RemapOf(cams, n - 1)) else [])
  }

  /** The script's lines before the copies. */
  function ScriptHead(listFile: string, bundleFile: string): seq<string>
  {
    ["# Script for preparing images and calibration data ",
     "#   for Yasutaka Furukawa's PMVS system",
     "",
     "# Apply radial undistortion to the images",
     "RadialUndistort " + listFile + " " + bundleFile,
     "",
     "# Create directory structure",
     "mkdir -p pmvs/",
     "mkdir -p pmvs/txt/",
     "mkdir -p pmvs/visualize/",
     "mkdir -p pmvs/models/",
     "",
     "# Copy and rename files"]
  }

  /** The script's lines after the copies: sample commands naming the
      number of cameras. */
  function ScriptTail(count: nat): seq<string>
  {
    ["",
     "# Sample commands for running pmvs:",
     "#   affine " + Config.Decimal(count) + " pmvs/ 4",
     "#   match " + Config.Decimal(count) + " pmvs/ 2 0 0 1 0.7 5"]
  }

  /** `prep_pmvs.sh`, line by line. */
  function Script(listFile: string, bundleFile: string, images: seq<string>, cams: seq<CameraRecord>): seq<string>
    requires Covered(images, cams)
  {
    ScriptHead(listFile, bundleFile) + Copies(images, cams, |cams|) + ScriptTail(RadialUndistort.CountGood(cams))
  }

  /** `WritePMVS`: the files and script for the reconstructed cameras, and
      the final value of `count`. */
  method WritePMVS(listFile: string, bundleFile: string, images: seq<string>, cams: seq<CameraRecord>, dims: string -> (int, int))
    returns (script: seq<string>, txts: seq<TxtFile>, count: int)
    requires Covered(images, cams) && AllWritable(cams)
    ensures count == RadialUndistort.CountGood(cams)
    ensures txts == Txts(images, cams, dims, |cams|)
    ensures script == Script(listFile, bundleFile, images, cams)
  {
    var copies: seq<string> := [];
    txts := [];
    count := 0;
    var i := 0;
    while i < |cams|
      invariant 0 <= i <= |cams|
      invariant count == RadialUndistort.CountGood(cams[..i])
      invariant txts == Txts(images, cams, dims, i)
      invariant copies == Copies(images, cams, i)
    {
      assert cams[..i + 1][..i] == cams[..i];
      if cams[i].f != 0.0 {
        var name := TxtName(count);
        var (w, h) := dims(images[i]);
        var K := Intrinsics(cams[i].f, w, h);
        var Ptmp := Extrinsics(cams[i]);
        var m := Product34(K, Ptmp);
        var P := seq(12, k requires 0 <= k < 12 => -m[k]);
        txts := txts + [TxtFile(name, P)];
        var basename := Basename(images[i]);
        copies := copies + ["cp " + basename + ".rd.jpg pmvs/visualize/" + Pad4(count) + ".jpg", "mv " + name + " pmvs/txt/"];
        count := count + 1;
      }
      i := i + 1;
    }
    assert cams[..i] == cams;
    script := ScriptHead(listFile, bundleFile) + copies + ScriptTail(count);
  }

  /** There is one file per reconstructed camera. */
  lemma {:induction false} WrittenCount(images: seq<string>, cams: seq<CameraRecord>, dims: string -> (int, int), n: nat)
    requires n <= |cams| && Covered(images, cams) && AllWritable(cams)
    ensures |Txts(images, cams, dims, n)| == RadialUndistort.CountGood(cams[..n])
    decreases n
  {
    if n > 0 {
      WrittenCount(images, cams, dims, n - 1);
      assert cams[..n][..n - 1] == cams[..n - 1];
    }
  }

  /** Reconstructed camera `i` gets the file numbered `RemapOf(cams, i)`:
      the number `RadialUndistort` gives it in `bundle.rd.out`. */
  lemma {:induction false} TxtFor(images: seq<string>, cams: seq<CameraRecord>, dims: string -> (int, int), n: nat, i: nat)
    requires n <= |cams| && Covered(images, cams) && AllWritable(cams)
    requires i < n && RadialUndistort.Good(cams[i])
    ensures var j := RadialUndistort.RemapOf(cams, i);
            j < |Txts(images, cams, dims, n)| && Txts(images, cams, dims, n)[j] == CameraTxt(images, cams, dims, i, j)
    decreases n
  {
    WrittenCount(images, cams, dims, n - 1);
    RadialUndistort.CountGoodPrefix(cams, i, n - 1);
    if i < n - 1 {
      TxtFor(images, cams, dims, n - 1, i);
    }
  }

  /** The copy lines of reconstructed camera `i` come at position
      `RemapOf(cams, i)`, the number its file and image get. */
  lemma {:induction false} CopyFor(images: seq<string>, cams: seq<CameraRecord>, n: nat, i: nat)
    requires n <= |cams| && Covered(images, cams)
    requires i < n && RadialUndistort.Good(cams[i])
    ensures var j := RadialUndistort.RemapOf(cams, i);
            && 2 * j + 1 < |Copies(images, cams, n)|
            && Copies(images, cams, n)[2 * j] == CameraLines(images, i, j)[0]
            && Copies(images, cams, n)[2 * j + 1] == CameraLines(images, i, j)[1]
    decreases n
  {
    CopiesCount(images, cams, n - 1);
    RadialUndistort.CountGoodPrefix(cams, i, n - 1);
    if i < n - 1 {
      CopyFor(images, cams, n - 1, i);
    }
  }

  lemma {:induction false} CopiesCount(images: seq<string>, cams: seq<CameraRecord>, n: nat)
    requires n <= |cams| && Covered(images, cams)
    ensures |Copies(images, cams, n)| == 2 * RadialUndistort.CountGood(cams[..n])
    decreases n
  {
    if n > 0 {
      CopiesCount(images, cams, n - 1);
      assert cams[..n][..n - 1] == cams[..n - 1];
    }
  }

  /** The files have pairwise different names. */
  lemma TxtNamesDistinct(images: seq<string>, cams: seq<CameraRecord>, dims: string -> (int, int), a: nat, b: nat)
    requires Covered(images, cams) && AllWritable(cams)
    requires a < b < |cams| && RadialUndistort.Good(cams[a]) && RadialUndistort.Good(cams[b])
    ensures var txts := Txts(images, cams, dims, |cams|);
            var ja, jb := RadialUndistort.RemapOf(cams, a), RadialUndistort.RemapOf(cams, b);
            ja < |txts| && jb < |txts| && txts[ja].name != txts[jb].name
  {
    TxtFor(images, cams, dims, |cams|, a);
    TxtFor(images, cams, dims, |cams|, b);
    RadialUndistort.RemapOrdered(cams, a, b);
    var ja, jb := RadialUndistort.RemapOf(cams, a), RadialUndistort.RemapOf(cams, b);
    Pad4Injective(ja, jb);
    assert TxtName(ja)[..|Pad4(ja)|] == Pad4(ja);
    assert TxtName(jb)[..|Pad4(jb)|] == Pad4(jb);
  }

  // ---------------------------------------------------------------------
  // The program

  /** What `Bundle2PMVS` leaves: the script, the files and the count. */
  datatype Output = Output(script: seq<string>, txts: seq<TxtFile>, count: int)

  /** `main`: the usage check and the unreadable list file give exit
      status 1, anything else 0.  `args` includes the program name.  The
      output is `None` where the bundle file is malformed, or where a
      reconstructed camera has no image name (the program then reads past
      the list). */
  method Run(args: seq<string>, listFile: Option<string>, bundleFile: Option<BundleText>,
             scanReal: string -> Option<real>, scanCounts: string -> Option<(int, int)>, dims: string -> (int, int))
    returns (status: int, out: Option<Output>)
    ensures status == 1 <==> |args| != 3 || listFile.None?
    ensures status == 0 <==> !(|args| != 3 || listFile.None?)
    ensures status == 0 && out.Some? ==>
              var r := ReadPmvsBundle(bundleFile, scanReal, scanCounts);
              var images := ListEntries(listFile.value);
              && r.Some? && Covered(images, r.value.0) && AllWritable(r.value.0)
              && out.value == Output(Script(args[1], args[2], images, r.value.0),
                                     Txts(images, r.value.0, dims, |r.value.0|),
                                     RadialUndistort.CountGood(r.value.0))
    ensures status == 0 && out.None? ==>
              var r := ReadPmvsBundle(bundleFile, scanReal, scanCounts);
              r.None? || !Covered(ListEntries(listFile.value), r.value.0)
  {
    if |args| != 3 {
      return 1, None;
    }
    if listFile.None? {
      return 1, None;
    }
    var images := ReadListFile(listFile.value);
    var read := ReadBundleFile(bundleFile, scanReal, scanCounts);
    if read.None? {
      return 0, None;
    }
    var cams := read.value.0;
    CamerasWritable(bundleFile, scanReal, scanCounts);
    if !Covered(images, cams) {
      return 0, None;
    }
    var script, txts, count := WritePMVS(args[1], args[2], images, cams, dims);
    return 0, Some(Output(script, txts, count));
  }

  /** Every camera read has a 3x3 rotation and a translation of three. */
  lemma CamerasWritable(file: Option<BundleText>, scanReal: string -> Option<real>, scanCounts: string -> Option<(int, int)>)
    requires ReadPmvsBundle(file, scanReal, scanCounts).Some?
    ensures AllWritable(ReadPmvsBundle(file, scanReal, scanCounts).value.0)
  {
    match file
    case None =>
    case Some(b) =>
      var h := ReadHeader(b, scanReal, scanCounts).value;
      var cams := Repeat(CameraReader(b.fields, h.version), h.next, h.numImages).value.0;
      RadialUndistort.CamerasShaped(b.fields, h.version, h.next, h.numImages);
      KeptCamerasShaped(cams);
  }

  lemma {:induction false} KeptCamerasShaped(recs: seq<CameraRecord>)
    requires AllWritable(recs)
    ensures AllWritable(KeptCameras(recs))
    decreases |recs|
  {
    if |recs| > 0 {
      KeptCamerasShaped(recs[..|recs| - 1]);
    }
  }
}
