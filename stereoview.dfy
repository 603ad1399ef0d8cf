/** The image store and tracking table of the stereo viewer
    (src/stereoviewer/stereoview.h, stereoview.cpp): stored images with
    their keypoints, one correspondence slot per feature in every image,
    and the keyfile and match-file parsers that fill them.  The `sync<…>`
    wrappers are plain fields here; a `QImage` is its size; the parsers
    read a sequence of tokens. */
module StereoView {
  import opened Wrappers
  import opened TextStream
  import Misc

  /** The `descriptor_dim` of `keypoint128`. */
  const DescriptorDim := 128

  /** A `QImage`, as far as the store looks at it. */
  datatype Image = Image(width: int, height: int)

  /** A `QSize`. */
  datatype Size = Size(width: int, height: int)

  /** `keypoint<128>`: position, scale, rotation, descriptor and the
      feature id the match parser gives it. */
  datatype Keypoint = Keypoint(x: real, y: real, scale: real, rotation: real, descriptor: seq<real>, optfid: Option<nat>)

  /** `correspondence`: an optional error (-1 marks the original corner of
      a feature), an optional group and the corner. */
  datatype Correspondence = Correspondence(err: Option<real>, group: Option<nat>, x: real, y: real)

  /** `correspondence::original`: the error is stored as -1. */
  function Original(x: real, y: real, grp: Option<nat>): (c: Correspondence)
    ensures IsOriginal(c) && Error(c) == None
    ensures c.x == x && c.y == y && c.group == grp
  {
    Correspondence(Some(-1.0), grp, x, y)
  }

  /** `correspondence::tracked`: the given error is stored as it is. */
  function Tracked(x: real, y: real, grp: Option<nat>, err: Option<real>): (c: Correspondence)
    ensures c.x == x && c.y == y && c.group == grp
    ensures (err.Some? && err.value >= 0.0) || err.None? ==> !IsOriginal(c) && Error(c) == err
  {
    Correspondence(err, grp, x, y)
  }

  /** `is_original`: an error is present and negative. */
  predicate IsOriginal(c: Correspondence)
  {
    match c.err
    case Some(e) => e < 0.0
    case None => false
  }

  /** `error`: none for an original, the stored error otherwise. */
  function Error(c: Correspondence): (r: Option<real>)
    ensures r.Some? ==> r.value >= 0.0
    ensures !IsOriginal(c) ==> r == c.err
  {
    if IsOriginal(c) then None else c.err
  }

  /** A tracked correspondence given a negative error reads back as an
      original one: the encoding cannot tell them apart. */
  lemma TrackedNegativeIsOriginal(x: real, y: real, grp: Option<nat>, e: real)
    requires e < 0.0
    ensures IsOriginal(Tracked(x, y, grp, Some(e))) && Error(Tracked(x, y, grp, Some(e))) == None
  {
  }

  /** `stored_image`: the image, its focal length, its keypoints, one
      correspondence slot per feature, and the features it originates. */
  datatype StoredImage = StoredImage(
    id: nat,
    qimage: Image,
    focalLength: Option<real>,
    keypoints: seq<Keypoint>,
    correspondences: seq<Option<Correspondence>>,
    featureIds: seq<nat>)

  /** `stored_image::image`: the stored image, scaled (by Qt, here the
      parameter `scaled`) only when a size is given that is smaller in
      width or in height. */
  function ShownImage(qimage: Image, sz: Option<Size>, scaled: (Image, Size) -> Image): (r: Image)
    ensures sz.None? ==> r == qimage
    ensures sz.Some? && sz.value.width >= qimage.width && sz.value.height >= qimage.height ==> r == qimage
    ensures sz.Some? && (sz.value.width < qimage.width || sz.value.height < qimage.height) ==> r == scaled(qimage, sz.value)
  {
    if sz.Some? && (sz.value.width < qimage.width || sz.value.height < qimage.height)
    then scaled(qimage, sz.value)
    else qimage
  }

  /** The position of the first stored image with the given id. */
  function IndexOf(db: seq<StoredImage>, id: nat): (r: Option<nat>)
    ensures r.Some? ==> r.value < |db| && db[r.value].id == id && forall j :: 0 <= j < r.value ==> db[j].id != id
    ensures r.None? ==> forall j :: 0 <= j < |db| ==> db[j].id != id
  {
    if |db| == 0 then None
    else if db[0].id == id then Some(0)
    else
      match IndexOf(db[1..], id)
      case None => None
      case Some(k) => Some(k + 1)
  }

  /** `find_by_image_id`: the first entry with the id, `invalid_argument`
      when there is none. */
  method FindByImageId(db: seq<StoredImage>, id: nat) returns (r: Result<nat>)
    ensures r.Fail? <==> IndexOf(db, id).None?
    ensures r.Fail? ==> r.error == InvalidArgument
    ensures r.Ok? ==> r.value == IndexOf(db, id).value
  {
    var i := 0;
    while i < |db|
      invariant 0 <= i <= |db| && forall j :: 0 <= j < i ==> db[j].id != id
    {
      if db[i].id == id {
        return Ok(i);
      }
      i := i + 1;
    }
    return Fail(InvalidArgument);
  }

  /** Finding locates exactly the entries that carry the id, and with
      distinct ids the one entry that does. */
  lemma IndexOfUnique(db: seq<StoredImage>, id: nat, k: nat)
    requires DistinctIds(db) && k < |db| && db[k].id == id
    ensures IndexOf(db, id) == Some(k)
  {
  }

  /** No id is stored twice (ids come from `fresh_int`). */
  predicate DistinctIds(db: seq<StoredImage>)
  {
    forall i, j :: 0 <= i < j < |db| ==> db[i].id != db[j].id
  }

  /** Every stored image has the size of the first. */
  predicate SameSize(db: seq<StoredImage>)
  {
    forall i :: 0 <= i < |db| ==> db[i].qimage == db[0].qimage
  }

  /** Every stored image has a slot for each of `n` features. */
  predicate SlotsFor(db: seq<StoredImage>, n: nat)
  {
    forall i :: 0 <= i < |db| ==> |db[i].correspondences| == n
  }

  /** Every feature id a stored keypoint holds is below `n`. */
  predicate FidsBelow(db: seq<StoredImage>, n: nat)
  {
    forall i, j :: 0 <= i < |db| && 0 <= j < |db[i].keypoints| && db[i].keypoints[j].optfid.Some? ==>
      db[i].keypoints[j].optfid.value < n
  }

  /** Replacing the keypoints of one image by keypoints without feature
      ids keeps the ids, the sizes, the slots and the feature ids in
      range. */
  lemma KeypointsReplaced(db: seq<StoredImage>, n: nat, k: nat, kps: seq<Keypoint>)
    requires k < |db| && Unassigned(kps)
    ensures var db' := db[k := db[k].(keypoints := kps)];
            (DistinctIds(db) ==> DistinctIds(db')) && (SameSize(db) ==> SameSize(db'))
            && (SlotsFor(db, n) ==> SlotsFor(db', n)) && (FidsBelow(db, n) ==> FidsBelow(db', n))
  {
    var db' := db[k := db[k].(keypoints := kps)];
    assert forall i :: 0 <= i < |db| ==> db'[i].id == db[i].id && db'[i].qimage == db[i].qimage;
  }

  /** The slot `add_feature` appends to an image other than the feature's
      own: none. */
  function Padded(e: StoredImage, imgid: nat): (e': StoredImage)
    ensures e'.id == e.id && e'.keypoints == e.keypoints && e'.featureIds == e.featureIds
    ensures e.id != imgid ==> e'.correspondences == e.correspondences + [None]
    ensures e.id == imgid ==> e' == e
  {
    if e.id != imgid then e.(correspondences := e.correspondences + [None]) else e
  }

  /** Position `offset` of the by-image iterator of image `id`. */
  datatype ByImageIterator = ByImageIterator(id: nat, offset: nat)

  /** `++` on the by-image iterator, `n` times. */
  function Advance(it: ByImageIterator, n: nat): ByImageIterator
    decreases n
  {
    if n == 0 then it else Advance(it.(offset := it.offset + 1), n - 1)
  }

  /** `feature`: the offset from the start of the correspondences. */
  function Feature(it: ByImageIterator): nat
  {
    it.offset
  }

  /** `n` steps from `begin_by_image` the iterator stands on feature `n`. */
  lemma {:induction false} AdvanceFeature(it: ByImageIterator, n: nat)
    ensures Feature(Advance(it, n)) == it.offset + n && Advance(it, n).id == it.id
    decreases n
  {
    if n > 0 {
      AdvanceFeature(it.(offset := it.offset + 1), n - 1);
    }
  }

  /** `n` numbers read as floats, each adapted. */
  function ReadFloatsAdapted(r: Reader, n: nat, adapt: real -> real): (res: (Reader, seq<real>))
    ensures |res.1| == n && res.0.toks == r.toks
    decreases n
  {
    if n == 0 then (r, [])
    else
      var (r1, v) := ReadFloat(r);
      var rest := ReadFloatsAdapted(r1, n - 1, adapt);
      (rest.0, [adapt(v)] + rest.1)
  }

  /** `n` numbers read as unsigned integers, each adapted. */
  function ReadUIntsAdapted(r: Reader, n: nat, adapt: nat -> real): (res: (Reader, seq<real>))
    ensures |res.1| == n && res.0.toks == r.toks
    decreases n
  {
    if n == 0 then (r, [])
    else
      var (r1, v) := ReadUInt(r);
      var rest := ReadUIntsAdapted(r1, n - 1, adapt);
      (rest.0, [adapt(v)] + rest.1)
  }

  /** One keypoint of a generic keyfile: `y x scale rotation` and the
      descriptor, the last three adapted. */
  function KeyfileKeypoint(r: Reader, dim: nat, adaptScale: real -> real, adaptRot: real -> real, adaptDescr: real -> real): (res: (Reader, Keypoint))
    ensures res.0.toks == r.toks && res.1.optfid == None
  {
    var (r1, y) := ReadFloat(r);
    var (r2, x) := ReadFloat(r1);
    var (r3, scale) := ReadFloat(r2);
    var (r4, rot) := ReadFloat(r3);
    var (r5, d) := ReadFloatsAdapted(r4, dim, adaptDescr);
    (r5, Keypoint(x, y, adaptScale(scale), adaptRot(rot), d, None))
  }

  /** One keypoint of a SIFT++ keyfile: `x y scale rotation` and 128
      unsigned descriptor values, the last three adapted. */
  function SiftKeypoint(r: Reader, dim: nat, adaptScale: real -> real, adaptRot: real -> real, adaptDescr: nat -> real): (res: (Reader, Keypoint))
    ensures res.0.toks == r.toks && res.1.optfid == None
  {
    var (r1, x) := ReadFloat(r);
    var (r2, y) := ReadFloat(r1);
    var (r3, scale) := ReadFloat(r2);
    var (r4, rot) := ReadFloat(r3);
    var (r5, d) := ReadUIntsAdapted(r4, dim, adaptDescr);
    (r5, Keypoint(x, y, adaptScale(scale), adaptRot(rot), d, None))
  }

  /** The generic keyfile stores `y` from the first number and `x` from
      the second; SIFT++ the other way round. */
  lemma KeypointFieldOrder(r: Reader, dim: nat, a: real, b: real, c: real, d: real,
                           adaptScale: real -> real, adaptRot: real -> real, adaptDescr: real -> real, adaptUInt: nat -> real)
    requires r.status == Good && r.pos + 4 <= |r.toks|
    requires r.toks[r.pos] == Decimal(a) && r.toks[r.pos + 1] == Decimal(b)
    requires r.toks[r.pos + 2] == Decimal(c) && r.toks[r.pos + 3] == Decimal(d)
    ensures var kp := KeyfileKeypoint(r, dim, adaptScale, adaptRot, adaptDescr).1;
            kp.y == a && kp.x == b && kp.scale == adaptScale(c) && kp.rotation == adaptRot(d)
    ensures var kp := SiftKeypoint(r, dim, adaptScale, adaptRot, adaptUInt).1;
            kp.x == a && kp.y == b && kp.scale == adaptScale(c) && kp.rotation == adaptRot(d)
  {
  }

  /** How one keypoint is read from a stream. */
  type KeypointRead = Reader -> (Reader, Keypoint)

  /** One keypoint of a generic keyfile, as a reading step. */
  function KeyfileRead(dim: nat, adaptScale: real -> real, adaptRot: real -> real, adaptDescr: real -> real): (read: KeypointRead)
  {
    q => KeyfileKeypoint(q, dim, adaptScale, adaptRot, adaptDescr)
  }

  /** One keypoint of a SIFT++ keyfile, as a reading step. */
  function SiftRead(dim: nat, adaptScale: real -> real, adaptRot: real -> real, adaptDescr: nat -> real): (read: KeypointRead)
  {
    q => SiftKeypoint(q, dim, adaptScale, adaptRot, adaptDescr)
  }

  /** No keypoint carries a feature id yet. */
  predicate Unassigned(kps: seq<Keypoint>)
  {
    forall i :: 0 <= i < |kps| ==> kps[i].optfid == None
  }

  /** The keypoints `parse_keyfile` stores for `n` announced ones: each one
      read is kept until a read leaves the stream not good, which is
      reported by `ok` being false; `ok` holds exactly when all `n` are
      stored. */
  function KeyfileKeypoints(r: Reader, n: nat, read: KeypointRead): (res: (seq<Keypoint>, bool))
    ensures res.1 <==> |res.0| == n
    ensures |res.0| <= n
    decreases n
  {
    if n == 0 then ([], true)
    else
      var (r1, kp) := read(r);
      if r1.status != Good then ([], false)
      else
        var rest := KeyfileKeypoints(r1, n - 1, read);
        ([kp] + rest.0, rest.1)
  }

  /** The keypoints `parse_siftpp_keyfile` stores for a file of `n` lines:
      before each keypoint a stream past its end stops quietly and a
      corrupt one is a `runtime_error`; a keypoint is stored however its
      reading went. */
  function SiftKeypoints(r: Reader, n: nat, read: KeypointRead): (res: (seq<Keypoint>, Status))
    ensures |res.0| <= n
    ensures res.1 == Done || res.1 == Raised(RuntimeError)
    decreases n
  {
    if n == 0 || r.status == PastEnd then ([], Done)
    else if r.status == Corrupt then ([], Raised(RuntimeError))
    else
      var (r1, kp) := read(r);
      var rest := SiftKeypoints(r1, n - 1, read);
      ([kp] + rest.0, rest.1)
  }

  /** One turn of the `parse_keyfile` loop that keeps the keypoint read:
      what is stored so far followed by what the rest of the loop stores
      stays the same. */
  lemma KeyfileLoopStep(whole: (seq<Keypoint>, bool), kps: seq<Keypoint>, cur: Reader, k: nat, read: KeypointRead)
    requires k > 0 && read(cur).0.status == Good
    requires whole.0 == kps + KeyfileKeypoints(cur, k, read).0 && whole.1 == KeyfileKeypoints(cur, k, read).1
    ensures whole.0 == (kps + [read(cur).1]) + KeyfileKeypoints(read(cur).0, k - 1, read).0
    ensures whole.1 == KeyfileKeypoints(read(cur).0, k - 1, read).1
  {
    var rest := KeyfileKeypoints(read(cur).0, k - 1, read);
    assert kps + ([read(cur).1] + rest.0) == (kps + [read(cur).1]) + rest.0;
  }

  /** One turn of the `parse_siftpp_keyfile` loop on a good stream. */
  lemma SiftLoopStep(whole: (seq<Keypoint>, Status), kps: seq<Keypoint>, cur: Reader, k: nat, read: KeypointRead)
    requires k > 0 && cur.status == Good
    requires whole.0 == kps + SiftKeypoints(cur, k, read).0 && whole.1 == SiftKeypoints(cur, k, read).1
    ensures whole.0 == (kps + [read(cur).1]) + SiftKeypoints(read(cur).0, k - 1, read).0
    ensures whole.1 == SiftKeypoints(read(cur).0, k - 1, read).1
  {
    var rest := SiftKeypoints(read(cur).0, k - 1, read);
    assert kps + ([read(cur).1] + rest.0) == (kps + [read(cur).1]) + rest.0;
  }

  /** A reading step that gives out keypoints without feature ids gives
      both loops keypoints without feature ids. */
  lemma {:induction false} LoopsUnassigned(r: Reader, n: nat, read: KeypointRead)
    requires forall q :: read(q).1.optfid == None
    ensures Unassigned(KeyfileKeypoints(r, n, read).0) && Unassigned(SiftKeypoints(r, n, read).0)
    ensures Unassigned(SiftKeypointsChecked(r, n, read).0)
    decreases n
  {
    if n > 0 {
      LoopsUnassigned(read(r).0, n - 1, read);
    }
  }

  /** The header of a generic keyfile: the keypoint count and the
      descriptor dimension. */
  function KeyfileHeader(toks: seq<Token>): (res: (Reader, nat, nat))
    ensures res.0.toks == toks
  {
    var (r1, n) := ReadUInt(Start(toks));
    var (r2, dim) := ReadUInt(r1);
    (r2, n, dim)
  }

  /** One turn of a descriptor loop of `parse_keyfile`. */
  lemma FloatsLoopStep(whole: seq<real>, acc: seq<real>, cur: Reader, k: nat, adapt: real -> real)
    requires k > 0 && whole == acc + ReadFloatsAdapted(cur, k, adapt).1
    ensures whole == (acc + [adapt(ReadFloat(cur).1)]) + ReadFloatsAdapted(ReadFloat(cur).0, k - 1, adapt).1
    ensures ReadFloatsAdapted(cur, k, adapt).0 == ReadFloatsAdapted(ReadFloat(cur).0, k - 1, adapt).0
  {
    var rest := ReadFloatsAdapted(ReadFloat(cur).0, k - 1, adapt).1;
    assert acc + ([adapt(ReadFloat(cur).1)] + rest) == (acc + [adapt(ReadFloat(cur).1)]) + rest;
  }

  /** One turn of the descriptor loop of `parse_siftpp_keyfile`. */
  lemma UIntsLoopStep(whole: seq<real>, acc: seq<real>, cur: Reader, k: nat, adapt: nat -> real)
    requires k > 0 && whole == acc + ReadUIntsAdapted(cur, k, adapt).1
    ensures whole == (acc + [adapt(ReadUInt(cur).1)]) + ReadUIntsAdapted(ReadUInt(cur).0, k - 1, adapt).1
    ensures ReadUIntsAdapted(cur, k, adapt).0 == ReadUIntsAdapted(ReadUInt(cur).0, k - 1, adapt).0
  {
    var rest := ReadUIntsAdapted(ReadUInt(cur).0, k - 1, adapt).1;
    assert acc + ([adapt(ReadUInt(cur).1)] + rest) == (acc + [adapt(ReadUInt(cur).1)]) + rest;
  }

  /** The descriptor loop of `parse_keyfile`. */
  method ReadDescriptorFloats(r: Reader, dim: nat, adapt: real -> real) returns (r': Reader, d: seq<real>)
    ensures (r', d) == ReadFloatsAdapted(r, dim, adapt)
  {
    var cur := r;
    var acc: seq<real> := [];
    var di := 0;
    assert acc + ReadFloatsAdapted(r, dim, adapt).1 == ReadFloatsAdapted(r, dim, adapt).1;
    while di < dim
      invariant 0 <= di <= dim && |acc| == di
      invariant ReadFloatsAdapted(r, dim, adapt).0 == ReadFloatsAdapted(cur, dim - di, adapt).0
      invariant ReadFloatsAdapted(r, dim, adapt).1 == acc + ReadFloatsAdapted(cur, dim - di, adapt).1
    {
      var (next, x) := ReadFloat(cur);
      FloatsLoopStep(ReadFloatsAdapted(r, dim, adapt).1, acc, cur, dim - di, adapt);
      acc := acc + [adapt(x)];
      cur := next;
      di := di + 1;
    }
    assert acc + [] == acc;
    r', d := cur, acc;
  }

  /** The descriptor loop of `parse_siftpp_keyfile`. */
  method ReadDescriptorUInts(r: Reader, dim: nat, adapt: nat -> real) returns (r': Reader, d: seq<real>)
    ensures (r', d) == ReadUIntsAdapted(r, dim, adapt)
  {
    var cur := r;
    var acc: seq<real> := [];
    var di := 0;
    assert acc + ReadUIntsAdapted(r, dim, adapt).1 == ReadUIntsAdapted(r, dim, adapt).1;
    while di < dim
      invariant 0 <= di <= dim && |acc| == di
      invariant ReadUIntsAdapted(r, dim, adapt).0 == ReadUIntsAdapted(cur, dim - di, adapt).0
      invariant ReadUIntsAdapted(r, dim, adapt).1 == acc + ReadUIntsAdapted(cur, dim - di, adapt).1
    {
      var (next, x) := ReadUInt(cur);
      UIntsLoopStep(ReadUIntsAdapted(r, dim, adapt).1, acc, cur, dim - di, adapt);
      acc := acc + [adapt(x)];
      cur := next;
      di := di + 1;
    }
    assert acc + [] == acc;
    r', d := cur, acc;
  }

  /** One keypoint as `parse_keyfile` reads it. */
  method ReadKeyfileKeypoint(r: Reader, dim: nat, adaptScale: real -> real, adaptRot: real -> real, adaptDescr: real -> real) returns (r': Reader, kp: Keypoint)
    ensures (r', kp) == KeyfileKeypoint(r, dim, adaptScale, adaptRot, adaptDescr)
  {
    var (r1, y) := ReadFloat(r);
    var (r2, x) := ReadFloat(r1);
    var (r3, scale) := ReadFloat(r2);
    var (r4, rot) := ReadFloat(r3);
    var r5, d := ReadDescriptorFloats(r4, dim, adaptDescr);
    r', kp := r5, Keypoint(x, y, adaptScale(scale), adaptRot(rot), d, None);
  }

  /** One keypoint as `parse_siftpp_keyfile` reads it. */
  method ReadSiftKeypoint(r: Reader, dim: nat, adaptScale: real -> real, adaptRot: real -> real, adaptDescr: nat -> real) returns (r': Reader, kp: Keypoint)
    ensures (r', kp) == SiftKeypoint(r, dim, adaptScale, adaptRot, adaptDescr)
  {
    var (r1, x) := ReadFloat(r);
    var (r2, y) := ReadFloat(r1);
    var (r3, scale) := ReadFloat(r2);
    var (r4, rot) := ReadFloat(r3);
    var r5, d := ReadDescriptorUInts(r4, dim, adaptDescr);
    r', kp := r5, Keypoint(x, y, adaptScale(scale), adaptRot(rot), d, None);
  }

  /** The keypoint loop of `parse_keyfile`: `n` keypoints read one after
      the other with the reading step, the stream checked after each. */
  method ReadKeyfileKeypoints(r: Reader, n: nat, read: KeypointRead) returns (kps: seq<Keypoint>, ok: bool)
    ensures (kps, ok) == KeyfileKeypoints(r, n, read)
  {
    ghost var whole := KeyfileKeypoints(r, n, read);
    kps := [];
    assert kps + whole.0 == whole.0;
    var cur := r;
    var i := 0;
    while i < n
      invariant 0 <= i <= n
      invariant whole.0 == kps + KeyfileKeypoints(cur, n - i, read).0
      invariant whole.1 == KeyfileKeypoints(cur, n - i, read).1
      decreases n - i
    {
      var (next, kp) := read(cur);
      if next.status != Good {
        assert kps + [] == kps;
        return kps, false;
      }
      KeyfileLoopStep(whole, kps, cur, n - i, read);
      kps := kps + [kp];
      cur := next;
      i := i + 1;
    }
    assert kps + [] == kps;
    ok := true;
  }

  /** The keypoint loop of `parse_siftpp_keyfile`: one keypoint per line
      read with the reading step, the stream checked before each. */
  method ReadSiftKeypoints(r: Reader, lineCount: nat, read: KeypointRead) returns (kps: seq<Keypoint>, st: Status)
    ensures (kps, st) == SiftKeypoints(r, lineCount, read)
  {
    ghost var whole := SiftKeypoints(r, lineCount, read);
    kps := [];
    assert kps + whole.0 == whole.0;
    var cur := r;
    var cnt := 0;
    while cnt < lineCount
      invariant 0 <= cnt <= lineCount
      invariant whole.0 == kps + SiftKeypoints(cur, lineCount - cnt, read).0
      invariant whole.1 == SiftKeypoints(cur, lineCount - cnt, read).1
    {
      if cur.status == PastEnd {
        assert kps + [] == kps;
        return kps, Done;
      }
      if cur.status == Corrupt {
        assert kps + [] == kps;
        return kps, Raised(RuntimeError);
      }
      var (next, kp) := read(cur);
      SiftLoopStep(whole, kps, cur, lineCount - cnt, read);
      kps := kps + [kp];
      cur := next;
      cnt := cnt + 1;
    }
    assert kps + [] == kps;
    st := Done;
  }

  /** A stream that is not good stays as it is through a descriptor read. */
  lemma {:induction false} ReadUIntsSticky(r: Reader, n: nat, adapt: nat -> real)
    requires r.status != Good
    ensures ReadUIntsAdapted(r, n, adapt).0 == r
    decreases n
  {
    if n > 0 {
      ReadUIntsSticky(ReadUInt(r).0, n - 1, adapt);
    }
  }

  /** A descriptor read that leaves the stream good consumed exactly its
      values, all present. */
  lemma {:induction false} ReadUIntsAdvance(r: Reader, n: nat, adapt: nat -> real)
    requires ReadUIntsAdapted(r, n, adapt).0.status == Good && r.pos <= |r.toks|
    ensures r.status == Good && ReadUIntsAdapted(r, n, adapt).0.pos == r.pos + n <= |r.toks|
    decreases n
  {
    if n > 0 {
      var r1 := ReadUInt(r).0;
      if r.status != Good {
        ReadUIntsSticky(r1, n - 1, adapt);
      } else {
        if r1.status != Good {
          ReadUIntsSticky(r1, n - 1, adapt);
        }
        ReadUIntsAdvance(r1, n - 1, adapt);
      }
    }
  }

  /** Over numerals that are all present, a descriptor read stays good and
      consumes exactly its values. */
  lemma {:induction false} ReadUIntsNumerals(r: Reader, n: nat, adapt: nat -> real)
    requires r.status == Good && NumeralsFrom(r) && r.pos + n <= |r.toks|
    ensures ReadUIntsAdapted(r, n, adapt).0 == r.(pos := r.pos + n)
    decreases n
  {
    if n > 0 {
      ReadUIntsNumerals(ReadUInt(r).0, n - 1, adapt);
    }
  }

  /** `k` lines of `len` tokens each fit into `avail` tokens. */
  predicate LinesFit(avail: nat, k: nat, len: nat)
    decreases k
  {
    k == 0 || (len <= avail && LinesFit(avail - len, k - 1, len))
  }

  /** `avail` tokens are exactly `k` lines of `len` tokens each. */
  predicate ExactLines(avail: nat, k: nat, len: nat)
    decreases k
  {
    if k == 0 then avail == 0 else len <= avail && ExactLines(avail - len, k - 1, len)
  }

  /** A SIFT++ keypoint read at the end of the stream leaves it past its
      end and holds zero coordinates. */
  lemma SiftKeypointAtEnd(r: Reader, dim: nat, adaptScale: real -> real, adaptRot: real -> real, adaptDescr: nat -> real)
    requires r.status == Good && r.pos >= |r.toks|
    ensures SiftKeypoint(r, dim, adaptScale, adaptRot, adaptDescr).0 == r.(status := PastEnd)
    ensures SiftKeypoint(r, dim, adaptScale, adaptRot, adaptDescr).1.x == 0.0
    ensures SiftKeypoint(r, dim, adaptScale, adaptRot, adaptDescr).1.y == 0.0
  {
    ReadUIntsSticky(r.(status := PastEnd), dim, adaptDescr);
  }

  /** A SIFT++ keypoint read that leaves the stream good consumed exactly
      one line of tokens, all present. */
  lemma SiftKeypointGood(r: Reader, dim: nat, adaptScale: real -> real, adaptRot: real -> real, adaptDescr: nat -> real)
    requires SiftKeypoint(r, dim, adaptScale, adaptRot, adaptDescr).0.status == Good
    ensures r.pos <= |r.toks| ==> SiftKeypoint(r, dim, adaptScale, adaptRot, adaptDescr).0.pos == r.pos + (4 + dim) <= |r.toks|
  {
    var r4 := ReadFloat(ReadFloat(ReadFloat(ReadFloat(r).0).0).0).0;
    assert SiftKeypoint(r, dim, adaptScale, adaptRot, adaptDescr).0 == ReadUIntsAdapted(r4, dim, adaptDescr).0;
    if r.pos <= |r.toks| {
      ReadUIntsAdvance(r4, dim, adaptDescr);
    }
  }

  /** A complete SIFT++ keypoint line is read in full. */
  lemma SiftKeypointComplete(r: Reader, dim: nat, adaptScale: real -> real, adaptRot: real -> real, adaptDescr: nat -> real)
    requires r.status == Good && NumeralsFrom(r) && r.pos + (4 + dim) <= |r.toks|
    ensures SiftKeypoint(r, dim, adaptScale, adaptRot, adaptDescr).0 == r.(pos := r.pos + (4 + dim))
  {
    var r4 := r.(pos := r.pos + 4);
    assert ReadFloat(ReadFloat(ReadFloat(ReadFloat(r).0).0).0).0 == r4;
    ReadUIntsNumerals(r4, dim, adaptDescr);
  }

  /** A reading step that reads a complete line of `len` numerals in full. */
  ghost predicate ReadsLines(read: KeypointRead, len: nat)
  {
    forall q: Reader {:trigger read(q)} :: q.status == Good && NumeralsFrom(q) && q.pos + len <= |q.toks| ==>
      read(q).0 == q.(pos := q.pos + len)
  }

  /** A reading step that, at the end of the stream, leaves it past its
      end with a keypoint at the origin. */
  ghost predicate ReadsZeroAtEnd(read: KeypointRead)
  {
    forall q: Reader {:trigger read(q)} :: q.status == Good && q.pos >= |q.toks| ==>
      read(q).0 == q.(status := PastEnd) && read(q).1.x == 0.0 && read(q).1.y == 0.0
  }

  /** A reading step that leaves the stream good consumed exactly one line
      of `len` tokens, all present. */
  ghost predicate GoodReadsLine(read: KeypointRead, len: nat)
  {
    forall q: Reader {:trigger read(q)} :: read(q).0.status == Good && q.pos <= |q.toks| ==>
      read(q).0.toks == q.toks && read(q).0.pos == q.pos + len <= |q.toks|
  }

  /** The SIFT++ reading step reads complete lines in full, the origin
      at the end, and never less than a line when it stays good. */
  lemma SiftReadLines(dim: nat, adaptScale: real -> real, adaptRot: real -> real, adaptDescr: nat -> real)
    ensures ReadsLines(SiftRead(dim, adaptScale, adaptRot, adaptDescr), 4 + dim)
    ensures ReadsZeroAtEnd(SiftRead(dim, adaptScale, adaptRot, adaptDescr))
    ensures GoodReadsLine(SiftRead(dim, adaptScale, adaptRot, adaptDescr), 4 + dim)
  {
    var read := SiftRead(dim, adaptScale, adaptRot, adaptDescr);
    forall q: Reader | q.status == Good && NumeralsFrom(q) && q.pos + (4 + dim) <= |q.toks|
      ensures read(q).0 == q.(pos := q.pos + (4 + dim))
    {
      SiftKeypointComplete(q, dim, adaptScale, adaptRot, adaptDescr);
    }
    forall q: Reader | q.status == Good && q.pos >= |q.toks|
      ensures read(q).0 == q.(status := PastEnd) && read(q).1.x == 0.0 && read(q).1.y == 0.0
    {
      SiftKeypointAtEnd(q, dim, adaptScale, adaptRot, adaptDescr);
    }
    forall q: Reader | read(q).0.status == Good && q.pos <= |q.toks|
      ensures read(q).0.toks == q.toks && read(q).0.pos == q.pos + (4 + dim) <= |q.toks|
    {
      SiftKeypointGood(q, dim, adaptScale, adaptRot, adaptDescr);
    }
  }

  /** `m` complete lines followed by more lines counted than there are
      store `m + 1` keypoints with the unchecked loop, the last at the
      origin. */
  lemma {:induction false} LinesThenBlank(r: Reader, m: nat, extra: nat, read: KeypointRead, len: nat)
    requires r.status == Good && NumeralsFrom(r) && r.pos <= |r.toks| && ExactLines(|r.toks| - r.pos, m, len) && extra > 0
    requires ReadsLines(read, len) && ReadsZeroAtEnd(read)
    ensures var res := SiftKeypoints(r, m + extra, read);
            |res.0| == m + 1 && res.1 == Done && res.0[m].x == 0.0 && res.0[m].y == 0.0
    decreases m
  {
    var kp := read(r).1;
    if m == 0 {
      var r1 := r.(status := PastEnd);
      assert read(r).0 == r1;
      assert SiftKeypoints(r1, extra - 1, read) == ([], Done);
      assert SiftKeypoints(r, m + extra, read) == ([kp] + [], Done);
    } else {
      var r1 := r.(pos := r.pos + len);
      assert read(r).0 == r1;
      LinesThenBlank(r1, m - 1, extra, read, len);
      var rest := SiftKeypoints(r1, (m - 1) + extra, read);
      assert SiftKeypoints(r, m + extra, read) == ([kp] + rest.0, rest.1);
    }
  }

  /** A SIFT++ file of `m` complete keypoint lines counted as more than
      `m` lines (a trailing blank line is enough) stores `m + 1`
      keypoints, the last one read past the end, at the origin. */
  lemma SiftppBlankLineAddsKeypoint(toks: seq<Token>, m: nat, extra: nat, dim: nat,
                                    adaptScale: real -> real, adaptRot: real -> real, adaptDescr: nat -> real)
    requires NumeralsFrom(Start(toks)) && ExactLines(|toks|, m, 4 + dim) && extra > 0
    ensures var res := SiftKeypoints(Start(toks), m + extra, SiftRead(dim, adaptScale, adaptRot, adaptDescr));
            |res.0| == m + 1 && res.1 == Done && res.0[m].x == 0.0 && res.0[m].y == 0.0
  {
    SiftReadLines(dim, adaptScale, adaptRot, adaptDescr);
    LinesThenBlank(Start(toks), m, extra, SiftRead(dim, adaptScale, adaptRot, adaptDescr), 4 + dim);
  }

  /** `parse_siftpp_keyfile` with the stream checked after each keypoint
      is read, as `parse_keyfile` does: a keypoint that ran past the end
      is not stored, a corrupt one is a `runtime_error`. */
  function SiftKeypointsChecked(r: Reader, n: nat, read: KeypointRead): (res: (seq<Keypoint>, Status))
    ensures |res.0| <= n
    ensures res.1 == Done || res.1 == Raised(RuntimeError)
    decreases n
  {
    if n == 0 || r.status == PastEnd then ([], Done)
    else if r.status == Corrupt then ([], Raised(RuntimeError))
    else
      var (r1, kp) := read(r);
      if r1.status == PastEnd then ([], Done)
      else if r1.status == Corrupt then ([], Raised(RuntimeError))
      else
        var rest := SiftKeypointsChecked(r1, n - 1, read);
        ([kp] + rest.0, rest.1)
  }

  /** With the stream checked after each read, every keypoint stored was read from a complete line
      of `len` tokens. */
  lemma {:induction false} CheckedFits(r: Reader, n: nat, read: KeypointRead, len: nat)
    requires r.pos <= |r.toks| && GoodReadsLine(read, len)
    ensures LinesFit(|r.toks| - r.pos, |SiftKeypointsChecked(r, n, read).0|, len)
    decreases n
  {
    if n > 0 && r.status == Good {
      var r1 := read(r).0;
      if r1.status == Good {
        CheckedFits(r1, n - 1, read, len);
        assert |r.toks| - r.pos - len == |r1.toks| - r1.pos;
      }
    }
  }

  /** With the stream checked after each read, every keypoint stored from a SIFT++ file was read
      from a complete line of tokens. */
  lemma SiftppCheckedReadsWholeLines(toks: seq<Token>, n: nat, dim: nat,
                                     adaptScale: real -> real, adaptRot: real -> real, adaptDescr: nat -> real)
    ensures LinesFit(|toks|, |SiftKeypointsChecked(Start(toks), n, SiftRead(dim, adaptScale, adaptRot, adaptDescr)).0|, 4 + dim)
  {
    SiftReadLines(dim, adaptScale, adaptRot, adaptDescr);
    CheckedFits(Start(toks), n, SiftRead(dim, adaptScale, adaptRot, adaptDescr), 4 + dim);
  }

  /** With the stream checked after each read, `m` complete lines store exactly `m` keypoints,
      whatever the line count beyond `m`. */
  lemma {:induction false} LinesChecked(r: Reader, m: nat, extra: nat, read: KeypointRead, len: nat)
    requires r.status == Good && NumeralsFrom(r) && r.pos <= |r.toks| && ExactLines(|r.toks| - r.pos, m, len)
    requires ReadsLines(read, len) && ReadsZeroAtEnd(read)
    ensures var res := SiftKeypointsChecked(r, m + extra, read);
            |res.0| == m && res.1 == Done
    decreases m
  {
    if m == 0 {
      if extra > 0 {
        assert read(r).0 == r.(status := PastEnd);
      }
      assert SiftKeypointsChecked(r, m + extra, read) == ([], Done);
    } else {
      var r1 := r.(pos := r.pos + len);
      assert read(r).0 == r1;
      LinesChecked(r1, m - 1, extra, read, len);
      var rest := SiftKeypointsChecked(r1, (m - 1) + extra, read);
      assert SiftKeypointsChecked(r, m + extra, read) == ([read(r).1] + rest.0, rest.1);
    }
  }

  /** With the stream checked after each read, a SIFT++ file of `m` complete keypoint lines stores
      exactly `m` keypoints, whatever the line count beyond `m`. */
  lemma SiftppCheckedKeepsLines(toks: seq<Token>, m: nat, extra: nat, dim: nat,
                                adaptScale: real -> real, adaptRot: real -> real, adaptDescr: nat -> real)
    requires NumeralsFrom(Start(toks)) && ExactLines(|toks|, m, 4 + dim)
    ensures var res := SiftKeypointsChecked(Start(toks), m + extra, SiftRead(dim, adaptScale, adaptRot, adaptDescr));
            |res.0| == m && res.1 == Done
  {
    SiftReadLines(dim, adaptScale, adaptRot, adaptDescr);
    LinesChecked(Start(toks), m, extra, SiftRead(dim, adaptScale, adaptRot, adaptDescr), 4 + dim);
  }

  /** One turn of the checked `parse_siftpp_keyfile` loop whose read
      leaves the stream good. */
  lemma SiftCheckedLoopStep(whole: (seq<Keypoint>, Status), kps: seq<Keypoint>, cur: Reader, k: nat, read: KeypointRead)
    requires k > 0 && cur.status == Good && read(cur).0.status == Good
    requires whole.0 == kps + SiftKeypointsChecked(cur, k, read).0 && whole.1 == SiftKeypointsChecked(cur, k, read).1
    ensures whole.0 == (kps + [read(cur).1]) + SiftKeypointsChecked(read(cur).0, k - 1, read).0
    ensures whole.1 == SiftKeypointsChecked(read(cur).0, k - 1, read).1
  {
    var rest := SiftKeypointsChecked(read(cur).0, k - 1, read);
    assert kps + ([read(cur).1] + rest.0) == (kps + [read(cur).1]) + rest.0;
  }

  /** The keypoint loop of `parse_siftpp_keyfile` with the stream checked
      after each keypoint as well as before it. */
  method ReadSiftKeypointsChecked(r: Reader, lineCount: nat, read: KeypointRead) returns (kps: seq<Keypoint>, st: Status)
    ensures (kps, st) == SiftKeypointsChecked(r, lineCount, read)
  {
    ghost var whole := SiftKeypointsChecked(r, lineCount, read);
    kps := [];
    assert kps + whole.0 == whole.0;
    var cur := r;
    var cnt := 0;
    while cnt < lineCount
      invariant 0 <= cnt <= lineCount
      invariant whole.0 == kps + SiftKeypointsChecked(cur, lineCount - cnt, read).0
      invariant whole.1 == SiftKeypointsChecked(cur, lineCount - cnt, read).1
    {
      if cur.status == PastEnd {
        assert kps + [] == kps;
        return kps, Done;
      }
      if cur.status == Corrupt {
        assert kps + [] == kps;
        return kps, Raised(RuntimeError);
      }
      var (next, kp) := read(cur);
      if next.status == PastEnd {
        assert kps + [] == kps;
        return kps, Done;
      }
      if next.status == Corrupt {
        assert kps + [] == kps;
        return kps, Raised(RuntimeError);
      }
      SiftCheckedLoopStep(whole, kps, cur, lineCount - cnt, read);
      kps := kps + [kp];
      cur := next;
      cnt := cnt + 1;
    }
    assert kps + [] == kps;
    st := Done;
  }

  /** The tracking table: the stored images and the image each feature
      originates from. */
  datatype Table = Table(db: seq<StoredImage>, origins: seq<nat>)

  /** The invariants the tracking operations keep: distinct ids, one
      image size, a slot per feature in every image, and feature ids that
      name features. */
  predicate TableConsistent(t: Table)
  {
    DistinctIds(t.db) && SameSize(t.db) && SlotsFor(t.db, |t.origins|) && FidsBelow(t.db, |t.origins|)
  }

  /** Every feature a keypoint holds originates at that keypoint's image. */
  predicate FeatureOrigins(t: Table)
  {
    forall i, j :: 0 <= i < |t.db| && 0 <= j < |t.db[i].keypoints| && t.db[i].keypoints[j].optfid.Some? ==>
      t.db[i].keypoints[j].optfid.value < |t.origins| && t.origins[t.db[i].keypoints[j].optfid.value] == t.db[i].id
  }

  /** `b` is keypoint `a`, possibly given a feature id it did not have. */
  predicate KeypointKept(a: Keypoint, b: Keypoint)
  {
    a.x == b.x && a.y == b.y && a.scale == b.scale && a.rotation == b.rotation && a.descriptor == b.descriptor
    && (a.optfid.Some? ==> b.optfid == a.optfid)
  }

  /** `f` is image `e` with the same keypoints, kept. */
  predicate ImageKept(e: StoredImage, f: StoredImage)
  {
    e.id == f.id && e.qimage == f.qimage && e.focalLength == f.focalLength && |e.keypoints| == |f.keypoints|
    && forall j :: 0 <= j < |e.keypoints| ==> KeypointKept(e.keypoints[j], f.keypoints[j])
  }

  /** Table `u` keeps every image, keypoint and feature id of `t` and only
      appends features. */
  predicate Extended(t: Table, u: Table)
  {
    |t.db| == |u.db| && (forall i :: 0 <= i < |t.db| ==> ImageKept(t.db[i], u.db[i])) && t.origins <= u.origins
  }

  /** Every table extends itself. */
  lemma ExtendedRefl(t: Table)
    ensures Extended(t, t)
  {
    forall i | 0 <= i < |t.db| ensures ImageKept(t.db[i], t.db[i]) {
      assert forall j :: 0 <= j < |t.db[i].keypoints| ==> KeypointKept(t.db[i].keypoints[j], t.db[i].keypoints[j]);
    }
  }

  /** Extending is transitive. */
  lemma ExtendedTrans(t: Table, u: Table, v: Table)
    requires Extended(t, u) && Extended(u, v)
    ensures Extended(t, v)
  {
    forall i | 0 <= i < |t.db| ensures ImageKept(t.db[i], v.db[i]) {
      var e, f, g := t.db[i], u.db[i], v.db[i];
      assert ImageKept(e, f) && ImageKept(f, g);
      forall j | 0 <= j < |e.keypoints| ensures KeypointKept(e.keypoints[j], g.keypoints[j]) {
        assert KeypointKept(e.keypoints[j], f.keypoints[j]) && KeypointKept(f.keypoints[j], g.keypoints[j]);
      }
    }
  }

  /** Every image padded for a feature of image `imgid`. */
  function PadAll(db: seq<StoredImage>, imgid: nat): (r: seq<StoredImage>)
    ensures |r| == |db| && forall i :: 0 <= i < |db| ==> r[i] == Padded(db[i], imgid)
  {
    if |db| == 0 then [] else [Padded(db[0], imgid)] + PadAll(db[1..], imgid)
  }

  /** The images after `add_feature` on the image at position `k` gives
      feature `fid` the corner `(x, y)`: the others padded, this one with
      its original corner and the feature among those it originates. */
  function FeatureAdded(db: seq<StoredImage>, k: nat, x: real, y: real, grp: Option<nat>, fid: nat): (r: seq<StoredImage>)
    requires k < |db|
    ensures |r| == |db|
    ensures forall i :: 0 <= i < |db| && i != k ==> r[i] == Padded(db[i], db[k].id)
    ensures r[k] == db[k].(correspondences := db[k].correspondences + [Some(Original(x, y, grp))],
                           featureIds := db[k].featureIds + [fid])
  {
    PadAll(db, db[k].id)[k := db[k].(correspondences := db[k].correspondences + [Some(Original(x, y, grp))],
                                     featureIds := db[k].featureIds + [fid])]
  }

  /** Images that agree with `FeatureAdded` one by one are its result. */
  lemma FeatureAddedEach(db: seq<StoredImage>, db': seq<StoredImage>, k: nat, x: real, y: real, grp: Option<nat>, fid: nat)
    requires k < |db| == |db'|
    requires forall i :: 0 <= i < |db| && i != k ==> db'[i] == Padded(db[i], db[k].id)
    requires db'[k] == db[k].(correspondences := db[k].correspondences + [Some(Original(x, y, grp))],
                              featureIds := db[k].featureIds + [fid])
    ensures db' == FeatureAdded(db, k, x, y, grp, fid)
  {
  }

  /** Adding a feature keeps the table consistent and extends it. */
  lemma FeatureAddedKeeps(t: Table, k: nat, x: real, y: real, grp: Option<nat>)
    requires TableConsistent(t) && k < |t.db|
    ensures var u := Table(FeatureAdded(t.db, k, x, y, grp, |t.origins|), t.origins + [t.db[k].id]);
            TableConsistent(u) && Extended(t, u) && (FeatureOrigins(t) ==> FeatureOrigins(u))
  {
    var u := Table(FeatureAdded(t.db, k, x, y, grp, |t.origins|), t.origins + [t.db[k].id]);
    forall i | 0 <= i < |t.db| ensures u.db[i].keypoints == t.db[i].keypoints && u.db[i].id == t.db[i].id && u.db[i].qimage == t.db[i].qimage
      && u.db[i].focalLength == t.db[i].focalLength && |u.db[i].correspondences| == |t.origins| + 1
    {
      if i != k {
        assert t.db[i].id != t.db[k].id;
      }
    }
    forall i | 0 <= i < |t.db| ensures ImageKept(t.db[i], u.db[i]) {
      assert forall j :: 0 <= j < |t.db[i].keypoints| ==> KeypointKept(t.db[i].keypoints[j], u.db[i].keypoints[j]);
    }
  }

  /** `add_feature` for keypoint `j` of the image at position `k`, which
      has no feature yet, and the keypoint given the new feature's id. */
  function Assigned(t: Table, k: nat, j: nat, grp: Option<nat>): (u: Table)
    requires TableConsistent(t) && k < |t.db| && j < |t.db[k].keypoints| && t.db[k].keypoints[j].optfid.None?
    ensures TableConsistent(u) && Extended(t, u) && (FeatureOrigins(t) ==> FeatureOrigins(u))
    ensures u.origins == t.origins + [t.db[k].id] && u.db[k].keypoints[j].optfid == Some(|t.origins|)
    ensures u.db[k].correspondences[|t.origins|] == Some(Original(t.db[k].keypoints[j].x, t.db[k].keypoints[j].y, grp))
  {
    var kp := t.db[k].keypoints[j];
    var n := |t.origins|;
    FeatureAddedKeeps(t, k, kp.x, kp.y, grp);
    var db1 := FeatureAdded(t.db, k, kp.x, kp.y, grp, n);
    var u := Table(db1[k := db1[k].(keypoints := db1[k].keypoints[j := kp.(optfid := Some(n))])], t.origins + [t.db[k].id]);
    KeypointAssigned(t, Table(db1, u.origins), k, j, n);
    u
  }

  /** Giving a keypoint without feature a fresh feature of its own image
      keeps the table consistent and extended. */
  lemma KeypointAssigned(t: Table, m: Table, k: nat, j: nat, n: nat)
    requires TableConsistent(m) && Extended(t, m) && (FeatureOrigins(t) ==> FeatureOrigins(m))
    requires k < |t.db| && j < |t.db[k].keypoints| && t.db[k].keypoints[j].optfid.None?
    requires n < |m.origins| && m.origins[n] == m.db[k].id
    ensures var u := Table(m.db[k := m.db[k].(keypoints := m.db[k].keypoints[j := m.db[k].keypoints[j].(optfid := Some(n))])], m.origins);
            TableConsistent(u) && Extended(t, u) && (FeatureOrigins(t) ==> FeatureOrigins(u))
  {
    var e := m.db[k];
    var u := Table(m.db[k := e.(keypoints := e.keypoints[j := e.keypoints[j].(optfid := Some(n))])], m.origins);
    assert ImageKept(t.db[k], e);
    forall i | 0 <= i < |t.db| ensures ImageKept(t.db[i], u.db[i]) {
      if i == k {
        forall j' | 0 <= j' < |t.db[k].keypoints| ensures KeypointKept(t.db[k].keypoints[j'], u.db[k].keypoints[j']) {
          assert KeypointKept(t.db[k].keypoints[j'], e.keypoints[j']);
        }
      } else {
        assert ImageKept(t.db[i], m.db[i]);
      }
    }
    assert forall i :: 0 <= i < |m.db| ==> u.db[i].id == m.db[i].id && u.db[i].qimage == m.db[i].qimage;
  }

  /** Slot `fid` of the image at position `k` set to `c`, as
      `set_correspondence` does. */
  function CorrespondenceSet(db: seq<StoredImage>, k: nat, fid: nat, c: Correspondence): (r: seq<StoredImage>)
    requires k < |db| && fid < |db[k].correspondences|
    ensures |r| == |db| && forall i :: 0 <= i < |db| ==> |r[i].correspondences| == |db[i].correspondences|
    ensures r[k].correspondences[fid] == Some(c)
    ensures forall i :: 0 <= i < |db| && i != k ==> r[i] == db[i]
    ensures forall i :: 0 <= i < |db| ==> r[i].(correspondences := db[i].correspondences) == db[i]
    ensures forall f :: 0 <= f < |db[k].correspondences| && f != fid ==> r[k].correspondences[f] == db[k].correspondences[f]
  {
    db[k := db[k].(correspondences := db[k].correspondences[fid := Some(c)])]
  }

  /** Setting a slot keeps the table consistent and extends it. */
  lemma CorrespondenceSetKeeps(t: Table, k: nat, fid: nat, c: Correspondence)
    requires TableConsistent(t) && k < |t.db| && fid < |t.origins|
    ensures var u := Table(CorrespondenceSet(t.db, k, fid, c), t.origins);
            TableConsistent(u) && Extended(t, u) && (FeatureOrigins(t) ==> FeatureOrigins(u))
  {
    var u := Table(CorrespondenceSet(t.db, k, fid, c), t.origins);
    forall i | 0 <= i < |t.db| ensures ImageKept(t.db[i], u.db[i]) {
      assert u.db[i].keypoints == t.db[i].keypoints;
      assert forall j :: 0 <= j < |t.db[i].keypoints| ==> KeypointKept(t.db[i].keypoints[j], u.db[i].keypoints[j]);
    }
  }

  /** One keypoint match of `parse_keypoint_matches_file`: keypoint `kp1`
      of the image at `k1` gets a feature unless it has one, and the slot
      of that feature in the image at `k2` becomes the tracked corner of
      keypoint `kp2`. */
  function PairStep(t: Table, k1: nat, k2: nat, kp1: nat, kp2: nat, grp: Option<nat>): (u: Table)
    requires TableConsistent(t) && k1 < |t.db| && k2 < |t.db|
    requires kp1 < |t.db[k1].keypoints| && kp2 < |t.db[k2].keypoints|
    ensures TableConsistent(u) && Extended(t, u) && (FeatureOrigins(t) ==> FeatureOrigins(u))
    ensures u.db[k1].keypoints[kp1].optfid.Some?
    ensures t.db[k1].keypoints[kp1].optfid.Some? ==> u.origins == t.origins
    ensures t.db[k1].keypoints[kp1].optfid.None? ==>
              u.origins == t.origins + [t.db[k1].id] && u.db[k1].keypoints[kp1].optfid == Some(|t.origins|)
    ensures var fid := u.db[k1].keypoints[kp1].optfid.value;
            fid < |u.db[k2].correspondences|
            && u.db[k2].correspondences[fid] == Some(Tracked(t.db[k2].keypoints[kp2].x, t.db[k2].keypoints[kp2].y, grp, None))
  {
    var t1 := if t.db[k1].keypoints[kp1].optfid.Some? then t else Assigned(t, k1, kp1, grp);
    var fid := t1.db[k1].keypoints[kp1].optfid.value;
    var c2 := t.db[k2].keypoints[kp2];
    CorrespondenceSetKeeps(t1, k2, fid, Tracked(c2.x, c2.y, grp, None));
    var u := Table(CorrespondenceSet(t1.db, k2, fid, Tracked(c2.x, c2.y, grp, None)), t1.origins);
    ExtendedTrans(t, t1, u);
    u
  }

  /** The group number read after a keypoint match in group mode. */
  function GroupOf(r: Reader, groupMode: bool): (res: (Reader, Option<nat>))
    ensures !groupMode ==> res == (r, None)
    ensures groupMode ==> res == (ReadUInt(r).0, Some(ReadUInt(r).1))
  {
    if groupMode then (ReadUInt(r).0, Some(ReadUInt(r).1)) else (r, None)
  }

  /** The count of reads left after one more. */
  function Fewer(n: nat): (m: nat)
    requires n > 0
    ensures m + 1 == n
  {
    n - 1
  }

  /** One keypoint match `kp1 kp2 [group]` of `parse_keypoint_matches_file`
      between the images at `k1` and `k2`: an index out of range or a
      stream not good after the match is a `runtime_error` with the table
      unchanged. */
  function MatchPair(t: Table, r: Reader, k1: nat, k2: nat, groupMode: bool): (res: (Table, Reader, Status))
    requires TableConsistent(t) && k1 < |t.db| && k2 < |t.db|
    ensures TableConsistent(res.0) && Extended(t, res.0) && (FeatureOrigins(t) ==> FeatureOrigins(res.0))
    ensures res.2 == Done || (res.2 == Raised(RuntimeError) && res.0 == t)
    ensures res.2 == Done ==> res.1.status == Good
  {
    var (r1, kp1) := ReadUInt(r);
    var (r2, kp2) := ReadUInt(r1);
    if kp1 >= |t.db[k1].keypoints| || kp2 >= |t.db[k2].keypoints| then ExtendedRefl(t); (t, r2, Raised(RuntimeError))
    else
      var (r3, grp) := GroupOf(r2, groupMode);
      if r3.status != Good then ExtendedRefl(t); (t, r3, Raised(RuntimeError))
      else (PairStep(t, k1, k2, kp1, kp2, grp), r3, Done)
  }

  /** The inner loop of `parse_keypoint_matches_file` over the `n`
      keypoint matches of one set between the images at `k1` and `k2`:
      the first failing match ends it, with the matches before it
      stored. */
  function MatchPairs(t: Table, r: Reader, k1: nat, k2: nat, n: nat, groupMode: bool): (res: (Table, Reader, Status))
    requires TableConsistent(t) && k1 < |t.db| && k2 < |t.db|
    ensures TableConsistent(res.0) && Extended(t, res.0) && (FeatureOrigins(t) ==> FeatureOrigins(res.0))
    ensures res.2 == Done || res.2 == Raised(RuntimeError)
    decreases n
  {
    if n == 0 then ExtendedRefl(t); (t, r, Done)
    else
      var step := MatchPair(t, r, k1, k2, groupMode);
      if step.2 != Done then step
      else
        var res := MatchPairs(step.0, step.1, k1, k2, Fewer(n), groupMode);
        ExtendedTrans(t, step.0, res.0);
        res
  }

  /** One match set `img1 img2 count` of `parse_keypoint_matches_file`
      between the images `imgids[img1]` and `imgids[img2]`, and whether
      the reading goes on after it: a stream past its end before the set
      stops quietly, a corrupt one, an image index out of range or a set
      without the reference image is a `runtime_error`, an image not
      stored an `invalid_argument`, and a failing keypoint match ends the
      reading with the matches before it stored. */
  function MatchSet(t: Table, r: Reader, imgids: seq<nat>, groupMode: bool, refimg: Option<nat>): (res: (Table, Reader, Status, bool))
    requires TableConsistent(t)
    ensures TableConsistent(res.0) && Extended(t, res.0) && (FeatureOrigins(t) ==> FeatureOrigins(res.0))
    ensures res.2 == Done || res.2 == Raised(RuntimeError) || res.2 == Raised(InvalidArgument)
    ensures res.3 ==> res.2 == Done
    ensures res.2 == Raised(InvalidArgument) ==> res.0 == t
  {
    var (r1, img1) := ReadUInt(r);
    var (r2, img2) := ReadUInt(r1);
    var (r3, kpcnt) := ReadUInt(r2);
    if r3.status == PastEnd then ExtendedRefl(t); (t, r3, Done, false)
    else if r3.status == Corrupt then ExtendedRefl(t); (t, r3, Raised(RuntimeError), false)
    else if img1 >= |imgids| || img2 >= |imgids| then ExtendedRefl(t); (t, r3, Raised(RuntimeError), false)
    else if refimg.Some? && img1 != refimg.value && img2 != refimg.value then ExtendedRefl(t); (t, r3, Raised(RuntimeError), false)
    else if IndexOf(t.db, imgids[img1]).None? || IndexOf(t.db, imgids[img2]).None? then ExtendedRefl(t); (t, r3, Raised(InvalidArgument), false)
    else
      var ms := MatchPairs(t, r3, IndexOf(t.db, imgids[img1]).value, IndexOf(t.db, imgids[img2]).value, kpcnt, groupMode);
      (ms.0, ms.1, ms.2, ms.2 == Done)
  }

  /** The outer loop of `parse_keypoint_matches_file` over up to `n` match
      sets: the first set that stops the reading ends it. */
  function MatchSets(t: Table, r: Reader, imgids: seq<nat>, n: nat, groupMode: bool, refimg: Option<nat>): (res: (Table, Status))
    requires TableConsistent(t)
    ensures TableConsistent(res.0) && Extended(t, res.0) && (FeatureOrigins(t) ==> FeatureOrigins(res.0))
    ensures res.1 == Done || res.1 == Raised(RuntimeError) || res.1 == Raised(InvalidArgument)
    decreases n
  {
    if n == 0 then ExtendedRefl(t); (t, Done)
    else
      var step := MatchSet(t, r, imgids, groupMode, refimg);
      if !step.3 then (step.0, step.2)
      else
        var res := MatchSets(step.0, step.1, imgids, Fewer(n), groupMode, refimg);
        ExtendedTrans(t, step.0, res.0);
        res
  }

  /** The conversion of an `int` to a 64-bit `size_t`. */
  function ToSize(v: int): (n: nat)
    ensures n < 0x1_0000_0000_0000_0000
    ensures 0 <= v < 0x1_0000_0000_0000_0000 ==> n == v
    ensures -0x1_0000_0000_0000_0000 <= v < 0 ==> n == v + 0x1_0000_0000_0000_0000
  {
    v % 0x1_0000_0000_0000_0000
  }

  /** The number of match sets expected for `size` images: one per other
      image with a reference image (`size - 1` computed in `int`, so
      `SIZE_MAX` for no image), else one per pair. */
  function ExpectedMatchSets(size: nat, refimg: Option<nat>): (n: nat)
    requires size <= 0x7FFF_FFFF
    ensures refimg.Some? ==> n == ToSize(size - 1) && (size > 0 ==> n == size - 1)
    ensures refimg.None? ==> n + n == size * (size - 1)
  {
    if refimg.Some? then ToSize(size - 1)
    else
      ConsecutiveProductEven(size);
      size * (size - 1) / 2
  }

  /** The product of two consecutive numbers is even. */
  lemma {:induction false} ConsecutiveProductEven(s: nat)
    ensures (s * (s - 1)) % 2 == 0 && s * (s - 1) >= 0
  {
    if s > 1 {
      ConsecutiveProductEven(s - 1);
      assert s * (s - 1) == (s - 1) * (s - 2) + 2 * (s - 1);
    }
  }

  /** A left keypoint matched a second time keeps the feature it got the
      first time, and no feature is added for it. */
  lemma FeatureReused(t: Table, k1: nat, k2: nat, kp1: nat, kp2: nat, grp: Option<nat>,
                      k2': nat, kp2': nat, grp': Option<nat>)
    requires TableConsistent(t) && k1 < |t.db| && k2 < |t.db| && k2' < |t.db|
    requires kp1 < |t.db[k1].keypoints| && kp2 < |t.db[k2].keypoints| && kp2' < |t.db[k2'].keypoints|
    ensures var u := PairStep(t, k1, k2, kp1, kp2, grp);
            var v := PairStep(u, k1, k2', kp1, kp2', grp');
            v.origins == u.origins && v.db[k1].keypoints[kp1].optfid == u.db[k1].keypoints[kp1].optfid
            && |v.origins| <= |t.origins| + 1
  {
    var u := PairStep(t, k1, k2, kp1, kp2, grp);
    var v := PairStep(u, k1, k2', kp1, kp2', grp');
    assert ImageKept(u.db[k1], v.db[k1]);
    assert KeypointKept(u.db[k1].keypoints[kp1], v.db[k1].keypoints[kp1]);
  }

  /** A stream already at its end ends the reading of match sets quietly
      with the table unchanged, however many sets were expected. */
  lemma MatchSetsStopAtEnd(t: Table, r: Reader, imgids: seq<nat>, n: nat, groupMode: bool, refimg: Option<nat>)
    requires TableConsistent(t) && r.status != Corrupt && r.pos >= |r.toks|
    ensures MatchSets(t, r, imgids, n, groupMode, refimg) == (t, Done)
  {
    if n > 0 {
      assert ReadUInt(r).0.status == PastEnd;
      assert !MatchSet(t, r, imgids, groupMode, refimg).3;
    }
  }

  /** With no image every match set names an image out of range, so the
      table is left unchanged even though `size - 1` wrapped around to the
      largest `size_t` for the expected count. */
  lemma NoImagesNoMatches(t: Table, toks: seq<Token>, groupMode: bool, refimg: Option<nat>)
    requires TableConsistent(t)
    ensures refimg.Some? ==> ExpectedMatchSets(0, refimg) == 0xFFFF_FFFF_FFFF_FFFF
    ensures MatchSets(t, Start(toks), [], ExpectedMatchSets(0, refimg), groupMode, refimg).0 == t
  {
    var n := ExpectedMatchSets(0, refimg);
    if n > 0 {
      assert !MatchSet(t, Start(toks), [], groupMode, refimg).3;
    }
  }

  /** `stereoview`: the stored images in insertion order, the image each
      feature originates from, and the rescale size. */
  class Viewer {
    var db: seq<StoredImage>
    var origins: seq<nat>
    var rescale: Option<Size>

    /** Ids are distinct and all images have one size. */
    predicate Valid()
      reads this
    {
      DistinctIds(db) && SameSize(db)
    }

    /** Every image has a slot for every feature. */
    predicate Rectangular()
      reads this
    {
      SlotsFor(db, |origins|)
    }

    constructor()
      ensures Valid() && Rectangular() && db == [] && origins == [] && rescale == None
    {
      db := [];
      origins := [];
      rescale := None;
    }

    /** `width`: 0 for an empty store, else the first image's width. */
    function Width(): (w: int)
      reads this
      ensures |db| == 0 ==> w == 0
      ensures Valid() ==> forall i :: 0 <= i < |db| ==> db[i].qimage.width == w
    {
      if |db| == 0 then 0 else db[0].qimage.width
    }

    /** `height`: 0 for an empty store, else the first image's height. */
    function Height(): (h: int)
      reads this
      ensures |db| == 0 ==> h == 0
      ensures Valid() ==> forall i :: 0 <= i < |db| ==> db[i].qimage.height == h
    {
      if |db| == 0 then 0 else db[0].qimage.height
    }

    /** `size`. */
    function Count(): (n: nat)
      reads this
      ensures n == |db|
    {
      |db|
    }

    /** `is_empty`. */
    function IsEmpty(): (b: bool)
      reads this
      ensures b <==> |db| == 0
    {
      |db| == 0
    }

    /** `clear`: no image and no feature left. */
    method Clear()
      modifies this
      ensures Valid() && Rectangular() && db == [] && origins == [] && rescale == old(rescale)
    {
      db := [];
      origins := [];
    }

    /** `add_image`: an image of another size than the stored ones is an
        `invalid_argument`; otherwise it is stored under the next
        `fresh_int`, which is returned. */
    method AddImage(img: Image, focalLength: Option<real>, ids: Misc.FreshInts) returns (r: Result<nat>)
      requires ids.Valid()
      modifies this, ids
      ensures ids.Valid() && origins == old(origins) && rescale == old(rescale)
      ensures |old(db)| > 0 && (img.width != old(Width()) || img.height != old(Height())) ==>
                r == Fail(InvalidArgument) && db == old(db) && ids.c == old(ids.c)
      ensures |old(db)| == 0 || (img.width == old(Width()) && img.height == old(Height())) ==>
                r == Ok(old(ids.c)) && ids.c == (old(ids.c) + 1) % Misc.UIntRange
                && db == old(db) + [StoredImage(old(ids.c), img, focalLength, [], [], [])]
      ensures old(Valid()) && (forall i :: 0 <= i < |old(db)| ==> old(db[i]).id != old(ids.c)) ==> Valid()
    {
      if |db| > 0 && (img.width != Width() || img.height != Height()) {
        return Fail(InvalidArgument);
      }
      var id := ids.Next();
      db := db + [StoredImage(id, img, focalLength, [], [], [])];
      return Ok(id);
    }

    /** `remove_image`: the entry dropped, `invalid_argument` when the id
        is not stored. */
    method RemoveImage(id: nat) returns (st: Status)
      modifies this
      ensures origins == old(origins) && rescale == old(rescale)
      ensures IndexOf(old(db), id).None? ==> st == Raised(InvalidArgument) && db == old(db)
      ensures IndexOf(old(db), id).Some? ==>
                var k := IndexOf(old(db), id).value;
                st == Done && db == old(db[..k]) + old(db[k + 1..])
      ensures old(Valid()) ==> Valid()
      ensures old(Valid()) && IndexOf(old(db), id).Some? ==> forall i :: 0 <= i < |db| ==> db[i].id != id
    {
      var found := FindByImageId(db, id);
      if found.Fail? {
        return Raised(found.error);
      }
      var k := found.value;
      ghost var d0 := db;
      db := db[..k] + db[k + 1..];
      assert forall i :: 0 <= i < |db| ==> db[i] == d0[if i < k then i else i + 1];
      return Done;
    }

    /** `get_image`: the stored image as `stored_image::image` shows it at
        the rescale size. */
    method GetImage(id: nat, scaled: (Image, Size) -> Image) returns (r: Result<Image>)
      ensures IndexOf(db, id).None? ==> r == Fail(InvalidArgument)
      ensures IndexOf(db, id).Some? ==> r == Ok(ShownImage(db[IndexOf(db, id).value].qimage, rescale, scaled))
    {
      var found := FindByImageId(db, id);
      if found.Fail? {
        return Fail(found.error);
      }
      return Ok(ShownImage(db[found.value].qimage, rescale, scaled));
    }

    /** The tracking table's `operator()(imgid, fid)`. */
    function CorrespondenceAt(imgid: nat, fid: nat): (r: Result<Option<Correspondence>>)
      requires IndexOf(db, imgid).Some? ==> fid < |db[IndexOf(db, imgid).value].correspondences|
      reads this
      ensures r.Fail? <==> IndexOf(db, imgid).None?
      ensures r.Ok? ==> DistinctIds(db) ==> forall k :: 0 <= k < |db| && db[k].id == imgid ==> r.value == db[k].correspondences[fid]
    {
      match IndexOf(db, imgid)
      case None => Fail(InvalidArgument)
      case Some(k) => Ok(db[k].correspondences[fid])
    }

    /** `add_feature` on the stored image at position `k`: every other
        image gets an empty slot, this one its own corner as the original,
        and the feature, numbered by the count of `origins`, is recorded as
        originating here. */
    method AddFeature(k: nat, x: real, y: real, grp: Option<nat>) returns (fid: nat)
      requires k < |db|
      modifies this
      ensures |db| == |old(db)| && rescale == old(rescale)
      ensures fid == |old(origins)| && origins == old(origins) + [old(db[k]).id]
      ensures db == FeatureAdded(old(db), k, x, y, grp, fid)
    {
      var imgid := db[k].id;
      ghost var d0 := db;
      var i := 0;
      while i < |db|
        invariant 0 <= i <= |db| == |d0| && origins == old(origins) && rescale == old(rescale)
        invariant forall j :: 0 <= j < i ==> db[j] == Padded(d0[j], imgid)
        invariant forall j :: i <= j < |db| ==> db[j] == d0[j]
      {
        if db[i].id != imgid {
          db := db[i := db[i].(correspondences := db[i].correspondences + [None])];
        }
        i := i + 1;
      }
      db := db[k := db[k].(correspondences := db[k].correspondences + [Some(Original(x, y, grp))])];
      origins := origins + [imgid];
      fid := |origins| - 1;
      db := db[k := db[k].(featureIds := db[k].featureIds + [fid])];
      FeatureAddedEach(d0, db, k, x, y, grp, fid);
    }

    /** `set_correspondence`: slot `fid` of image `imgid` becomes a tracked
        correspondence; nothing else changes.  A missing image is an
        `invalid_argument`. */
    method SetCorrespondence(fid: nat, imgid: nat, x: real, y: real, grp: Option<nat>, err: Option<real>) returns (st: Status)
      requires IndexOf(db, imgid).Some? ==> fid < |db[IndexOf(db, imgid).value].correspondences|
      modifies this
      ensures origins == old(origins) && rescale == old(rescale)
      ensures IndexOf(old(db), imgid).None? ==> st == Raised(InvalidArgument) && db == old(db)
      ensures IndexOf(old(db), imgid).Some? ==>
                st == Done && db == CorrespondenceSet(old(db), IndexOf(old(db), imgid).value, fid, Tracked(x, y, grp, err))
      ensures old(Valid()) ==> Valid()
      ensures old(Rectangular()) ==> Rectangular()
    {
      var found := FindByImageId(db, imgid);
      if found.Fail? {
        return Raised(found.error);
      }
      var k := found.value;
      db := db[k := db[k].(correspondences := db[k].correspondences[fid := Some(Tracked(x, y, grp, err))])];
      return Done;
    }

    /** Every feature id a keypoint holds names a feature. */
    predicate FidsInRange()
      reads this
    {
      FidsBelow(db, |origins|)
    }

    /** The invariants the tracking operations keep together. */
    predicate Consistent()
      reads this
      ensures Consistent() <==> Valid() && Rectangular() && FidsInRange()
    {
      TableConsistent(Table(db, origins))
    }

    /** `parse_keyfile` over the tokens of a generic keyfile for image
        `id`: a header cut short or corrupt, or a descriptor dimension other
        than 128, is a `runtime_error` before anything changes; a missing
        image an `invalid_argument`.  Otherwise the old keypoints are
        replaced by those read; a keypoint whose reading leaves the stream
        not good is a `runtime_error`, and the ones before it stay. */
    method ParseKeyfile(id: nat, toks: seq<Token>, adaptScale: real -> real, adaptRot: real -> real, adaptDescr: real -> real)
      returns (st: Status)
      modifies this
      ensures origins == old(origins) && rescale == old(rescale)
      ensures var h := KeyfileHeader(toks);
              h.0.status != Good || h.2 != DescriptorDim ==> st == Raised(RuntimeError) && db == old(db)
      ensures var h := KeyfileHeader(toks);
              h.0.status == Good && h.2 == DescriptorDim && IndexOf(old(db), id).None? ==>
                st == Raised(InvalidArgument) && db == old(db)
      ensures var h := KeyfileHeader(toks);
              h.0.status == Good && h.2 == DescriptorDim && IndexOf(old(db), id).Some? ==>
                var k := IndexOf(old(db), id).value;
                var res := KeyfileKeypoints(h.0, h.1, KeyfileRead(h.2, adaptScale, adaptRot, adaptDescr));
                db == old(db)[k := old(db[k]).(keypoints := res.0)] && st == (if res.1 then Done else Raised(RuntimeError))
      ensures old(Consistent()) ==> Consistent()
    {
      var (r1, expected) := ReadUInt(Start(toks));
      var (r2, dim) := ReadUInt(r1);
      if r2.status != Good {
        return Raised(RuntimeError);
      }
      if dim != DescriptorDim {
        return Raised(RuntimeError);
      }
      var found := FindByImageId(db, id);
      if found.Fail? {
        return Raised(found.error);
      }
      var k := found.value;
      var kps, ok := ReadKeyfileKeypoints(r2, expected, KeyfileRead(dim, adaptScale, adaptRot, adaptDescr));
      LoopsUnassigned(r2, expected, KeyfileRead(dim, adaptScale, adaptRot, adaptDescr));
      KeypointsReplaced(db, |origins|, k, kps);
      db := db[k := db[k].(keypoints := kps)];
      st := if ok then Done else Raised(RuntimeError);
    }

    /** `parse_siftpp_keyfile` over the tokens of a SIFT++ file of
        `lineCount` lines (counted separately from the file) for image
        `id`: a missing image is an `invalid_argument`; otherwise the old
        keypoints are replaced by one keypoint per line, the reading
        stopping quietly when the stream is past its end before a keypoint
        and with a `runtime_error` when it is corrupt. */
    method ParseSiftppKeyfile(id: nat, toks: seq<Token>, lineCount: nat,
                              adaptScale: real -> real, adaptRot: real -> real, adaptDescr: nat -> real)
      returns (st: Status)
      modifies this
      ensures origins == old(origins) && rescale == old(rescale)
      ensures IndexOf(old(db), id).None? ==> st == Raised(InvalidArgument) && db == old(db)
      ensures IndexOf(old(db), id).Some? ==>
                var k := IndexOf(old(db), id).value;
                var res := SiftKeypoints(Start(toks), lineCount, SiftRead(DescriptorDim, adaptScale, adaptRot, adaptDescr));
                db == old(db)[k := old(db[k]).(keypoints := res.0)] && st == res.1
      ensures old(Consistent()) ==> Consistent()
    {
      var found := FindByImageId(db, id);
      if found.Fail? {
        return Raised(found.error);
      }
      var k := found.value;
      var kps;
      kps, st := ReadSiftKeypoints(Start(toks), lineCount, SiftRead(DescriptorDim, adaptScale, adaptRot, adaptDescr));
      LoopsUnassigned(Start(toks), lineCount, SiftRead(DescriptorDim, adaptScale, adaptRot, adaptDescr));
      KeypointsReplaced(db, |origins|, k, kps);
      db := db[k := db[k].(keypoints := kps)];
    }

    /** `parse_siftpp_keyfile` with the stream also checked after each
        keypoint, as `parse_keyfile` does: as above, except that a keypoint
        whose reading ran past the end is not stored. */
    method ParseSiftppKeyfileChecked(id: nat, toks: seq<Token>, lineCount: nat,
                                     adaptScale: real -> real, adaptRot: real -> real, adaptDescr: nat -> real)
      returns (st: Status)
      modifies this
      ensures origins == old(origins) && rescale == old(rescale)
      ensures IndexOf(old(db), id).None? ==> st == Raised(InvalidArgument) && db == old(db)
      ensures IndexOf(old(db), id).Some? ==>
                var k := IndexOf(old(db), id).value;
                var res := SiftKeypointsChecked(Start(toks), lineCount, SiftRead(DescriptorDim, adaptScale, adaptRot, adaptDescr));
                db == old(db)[k := old(db[k]).(keypoints := res.0)] && st == res.1
      ensures old(Consistent()) ==> Consistent()
    {
      var found := FindByImageId(db, id);
      if found.Fail? {
        return Raised(found.error);
      }
      var k := found.value;
      var kps;
      kps, st := ReadSiftKeypointsChecked(Start(toks), lineCount, SiftRead(DescriptorDim, adaptScale, adaptRot, adaptDescr));
      LoopsUnassigned(Start(toks), lineCount, SiftRead(DescriptorDim, adaptScale, adaptRot, adaptDescr));
      KeypointsReplaced(db, |origins|, k, kps);
      db := db[k := db[k].(keypoints := kps)];
    }

    /** The feature of keypoint `kp1` of the image at `k1`: the one it has,
        or a new one from `add_feature`, which the keypoint then holds. */
    method FeatureOf(k1: nat, kp1: nat, grp: Option<nat>) returns (fid: nat)
      requires Consistent() && k1 < |db| && kp1 < |db[k1].keypoints|
      modifies this
      ensures old(db[k1].keypoints[kp1].optfid).Some? ==> db == old(db) && origins == old(origins)
      ensures old(db[k1].keypoints[kp1].optfid).None? ==> Table(db, origins) == Assigned(old(Table(db, origins)), k1, kp1, grp)
      ensures k1 < |db| && kp1 < |db[k1].keypoints| && db[k1].keypoints[kp1].optfid == Some(fid)
      ensures rescale == old(rescale)
    {
      match db[k1].keypoints[kp1].optfid {
        case Some(f) =>
          fid := f;
        case None =>
          var kp := db[k1].keypoints[kp1];
          fid := AddFeature(k1, kp.x, kp.y, grp);
          db := db[k1 := db[k1].(keypoints := db[k1].keypoints[kp1 := kp.(optfid := Some(fid))])];
      }
    }

    /** One keypoint match: keypoint `kp1` of the image at `k1` is given a
        feature unless it has one, and `set_correspondence` tracks keypoint
        `kp2` of the image at `k2` for that feature. */
    method StoreMatch(k1: nat, k2: nat, kp1: nat, kp2: nat, grp: Option<nat>)
      requires Consistent() && k1 < |db| && k2 < |db| && kp1 < |db[k1].keypoints| && kp2 < |db[k2].keypoints|
      modifies this
      ensures Table(db, origins) == PairStep(old(Table(db, origins)), k1, k2, kp1, kp2, grp)
      ensures rescale == old(rescale)
    {
      ghost var before := Table(db, origins);
      var corner := db[k2].keypoints[kp2];
      var fid := FeatureOf(k1, kp1, grp);
      ghost var t1 := Table(db, origins);
      assert TableConsistent(t1) && Extended(before, t1);
      IndexOfUnique(db, db[k2].id, k2);
      var _ := SetCorrespondence(fid, db[k2].id, corner.x, corner.y, grp, None);
    }

    /** One keypoint match of `parse_keypoint_matches_file` between the
        images at `k1` and `k2`, read from `r` and stored. */
    method StorePair(r: Reader, k1: nat, k2: nat, groupMode: bool) returns (r': Reader, st: Status)
      requires Consistent() && k1 < |db| && k2 < |db|
      modifies this
      ensures (Table(db, origins), r', st) == MatchPair(old(Table(db, origins)), r, k1, k2, groupMode)
      ensures rescale == old(rescale)
    {
      var (r1, kp1) := ReadUInt(r);
      var (r2, kp2) := ReadUInt(r1);
      if kp1 >= |db[k1].keypoints| || kp2 >= |db[k2].keypoints| {
        return r2, Raised(RuntimeError);
      }
      var r3, grp := r2, None;
      if groupMode {
        var (r4, g) := ReadUInt(r2);
        r3, grp := r4, Some(g);
      }
      if r3.status != Good {
        return r3, Raised(RuntimeError);
      }
      StoreMatch(k1, k2, kp1, kp2, grp);
      return r3, Done;
    }

    /** The inner loop of `parse_keypoint_matches_file` over the `kpcnt`
        keypoint matches of one set between the images at `k1` and
        `k2`. */
    method StoreMatchSet(r: Reader, k1: nat, k2: nat, kpcnt: nat, groupMode: bool) returns (r': Reader, st: Status)
      requires Consistent() && k1 < |db| && k2 < |db|
      modifies this
      ensures (Table(db, origins), r', st) == MatchPairs(old(Table(db, origins)), r, k1, k2, kpcnt, groupMode)
      ensures rescale == old(rescale)
    {
      ghost var whole := MatchPairs(Table(db, origins), r, k1, k2, kpcnt, groupMode);
      var cur := r;
      var left := kpcnt;
      while left > 0
        invariant TableConsistent(Table(db, origins)) && k1 < |db| && k2 < |db|
        invariant MatchPairs(Table(db, origins), cur, k1, k2, left, groupMode) == whole
        invariant rescale == old(rescale)
      {
        var next, s := StorePair(cur, k1, k2, groupMode);
        if s != Done {
          return next, s;
        }
        cur := next;
        left := Fewer(left);
      }
      return cur, Done;
    }

    /** One match set of `parse_keypoint_matches_file`, read from `r` and
        stored; `more` tells whether the reading goes on. */
    method StoreSet(r: Reader, imgids: seq<nat>, groupMode: bool, refimg: Option<nat>) returns (r': Reader, st: Status, more: bool)
      requires Consistent()
      modifies this
      ensures (Table(db, origins), r', st, more) == MatchSet(old(Table(db, origins)), r, imgids, groupMode, refimg)
      ensures rescale == old(rescale)
    {
      var (r1, img1) := ReadUInt(r);
      var (r2, img2) := ReadUInt(r1);
      var (r3, kpcnt) := ReadUInt(r2);
      if r3.status == PastEnd {
        return r3, Done, false;
      }
      if r3.status == Corrupt {
        return r3, Raised(RuntimeError), false;
      }
      if img1 >= |imgids| || img2 >= |imgids| {
        return r3, Raised(RuntimeError), false;
      }
      if refimg.Some? && img1 != refimg.value && img2 != refimg.value {
        return r3, Raised(RuntimeError), false;
      }
      var found1 := FindByImageId(db, imgids[img1]);
      if found1.Fail? {
        return r3, Raised(found1.error), false;
      }
      var found2 := FindByImageId(db, imgids[img2]);
      if found2.Fail? {
        return r3, Raised(found2.error), false;
      }
      r', st := StoreMatchSet(r3, found1.value, found2.value, kpcnt, groupMode);
      more := st == Done;
    }

    /** `parse_keypoint_matches_file` over the tokens of a match file, for
        the images `imgids` (the reference image, if any, given by its
        index): the expected number of match sets is read one by one.
        The table stays consistent. */
    method ParseKeypointMatchesFile(imgids: seq<nat>, toks: seq<Token>, groupMode: bool, refimg: Option<nat>) returns (st: Status)
      requires Consistent() && |imgids| <= 0x7FFF_FFFF
      modifies this
      ensures (Table(db, origins), st) == MatchSets(old(Table(db, origins)), Start(toks), imgids, ExpectedMatchSets(|imgids|, refimg), groupMode, refimg)
      ensures rescale == old(rescale) && Consistent()
    {
      var n := ExpectedMatchSets(|imgids|, refimg);
      ghost var whole := MatchSets(Table(db, origins), Start(toks), imgids, n, groupMode, refimg);
      var cur := Start(toks);
      var left := n;
      while left > 0
        invariant TableConsistent(Table(db, origins))
        invariant MatchSets(Table(db, origins), cur, imgids, left, groupMode, refimg) == whole
        invariant rescale == old(rescale)
      {
        var next, s, more := StoreSet(cur, imgids, groupMode, refimg);
        if !more {
          return s;
        }
        cur := next;
        left := Fewer(left);
      }
      return Done;
    }
  }
}
