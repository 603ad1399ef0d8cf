/** The keyfiles `stereoview::generate_keyfiles` writes for bundler, one
    per image, and the list file naming them.  A written file is modelled
    as its lines, each line the numbers it holds in order.  Numbers are
    kept as values: the model takes the text `QTextStream` prints for a
    number to read back as that number (`Printed`), which holds for the
    values the stream prints exactly but not in general, since `<<` on a
    `double` keeps six significant digits. */
module KeyfileWriter {
  import opened Wrappers
  import opened TextStream
  import opened StereoView

  /** The lines of a text file, each the numbers it holds. */
  type Lines = seq<seq<real>>

  /** Descriptor values per line: a line break is written before
      elements 0, 20, 40, ... */
  const LineWidth: nat := 20

  /** `f` applied to every element. */
  function Apply(f: real -> real, s: seq<real>): (r: seq<real>)
    ensures |r| == |s| && forall i :: 0 <= i < |s| ==> r[i] == f(s[i])
  {
    if |s| == 0 then [] else [f(s[0])] + Apply(f, s[1..])
  }

  /** All numbers of the lines, in order. */
  function Flatten(ls: Lines): (s: seq<real>)
  {
    if |ls| == 0 then [] else ls[0] + Flatten(ls[1..])
  }

  lemma {:induction false} FlattenAppend(a: Lines, b: Lines)
    ensures Flatten(a + b) == Flatten(a) + Flatten(b)
  {
    if |a| == 0 {
      assert a + b == b;
    } else {
      assert (a + b)[0] == a[0];
      assert (a + b)[1..] == a[1..] + b;
      FlattenAppend(a[1..], b);
      assert a[0] + (Flatten(a[1..]) + Flatten(b)) == (a[0] + Flatten(a[1..])) + Flatten(b);
    }
  }

  /** `s` cut into lines of `LineWidth` values, the last one possibly
      shorter. */
  function Chunks(s: seq<real>): (cs: Lines)
    decreases |s|
  {
    if |s| == 0 then []
    else if |s| <= LineWidth then [s]
    else [s[..LineWidth]] + Chunks(s[LineWidth..])
  }

  /** Every line but the last is full, none is empty, and there are as
      many as it takes to hold `s`. */
  lemma {:induction false} ChunksShape(s: seq<real>)
    ensures var cs := Chunks(s);
            (forall i :: 0 <= i < |cs| - 1 ==> |cs[i]| == LineWidth)
            && |cs| == (|s| + LineWidth - 1) / LineWidth
            && (|cs| > 0 ==> 0 < |cs[|cs| - 1]| == |s| - LineWidth * (|cs| - 1))
    decreases |s|
  {
    if |s| > LineWidth {
      ChunksShape(s[LineWidth..]);
    }
  }

  /** The lines hold exactly the values cut, in order. */
  lemma {:induction false} ChunksFlatten(s: seq<real>)
    ensures Flatten(Chunks(s)) == s
    decreases |s|
  {
    if |s| > LineWidth {
      ChunksFlatten(s[LineWidth..]);
      assert s == s[..LineWidth] + s[LineWidth..];
    }
  }

  /** One more value opens a new line exactly when the last line is full. */
  lemma {:induction false} ChunksSnoc(s: seq<real>, x: real)
    ensures |s| % LineWidth == 0 ==> Chunks(s + [x]) == Chunks(s) + [[x]]
    ensures |s| % LineWidth != 0 ==>
              var cs := Chunks(s);
              |cs| > 0 && Chunks(s + [x]) == cs[..|cs| - 1] + [cs[|cs| - 1] + [x]]
    decreases |s|
  {
    if |s| > LineWidth {
      var t := s[LineWidth..];
      ChunksSnoc(t, x);
      assert (s + [x])[..LineWidth] == s[..LineWidth];
      assert (s + [x])[LineWidth..] == t + [x];
      assert |t| % LineWidth == |s| % LineWidth;
      var ct := Chunks(t);
      if |t| % LineWidth != 0 {
        assert [s[..LineWidth]] + ct[..|ct| - 1] == Chunks(s)[..|Chunks(s)| - 1];
      }
    } else if 0 < |s| < LineWidth {
      assert Chunks(s + [x]) == [s + [x]];
    } else if |s| == LineWidth {
      assert (s + [x])[..LineWidth] == s;
      assert (s + [x])[LineWidth..] == [x];
      assert Chunks([x]) == [[x]];
      assert Chunks(s) == [s] && |s| % LineWidth == 0;
      assert Chunks(s + [x]) == [s] + Chunks([x]);
    } else {
      assert s + [x] == [x];
    }
  }

  /** The lines of one keypoint: `y x scale rotation`, then the descriptor
      values, each printed as `pretty` gives it, twenty per line. */
  function KeypointLines(kp: Keypoint, pretty: real -> real): (ls: Lines)
    requires |kp.descriptor| >= DescriptorDim
    ensures |ls| == 8
  {
    var pd := Apply(pretty, kp.descriptor[..DescriptorDim]);
    ChunksShape(pd);
    [[kp.y, kp.x, kp.scale, kp.rotation]] + Chunks(pd)
  }

  /** Every keypoint holds a full descriptor. */
  predicate FullDescriptors(kps: seq<Keypoint>)
  {
    forall i :: 0 <= i < |kps| ==> |kps[i].descriptor| >= DescriptorDim
  }

  /** The lines of the keypoints, one after the other. */
  function KeypointsLines(kps: seq<Keypoint>, pretty: real -> real): (ls: Lines)
    requires FullDescriptors(kps)
    ensures |ls| == 8 * |kps|
  {
    if |kps| == 0 then [] else KeypointLines(kps[0], pretty) + KeypointsLines(kps[1..], pretty)
  }

  /** A keyfile: the header `count dimension`, then the keypoints. */
  function Keyfile(kps: seq<Keypoint>, pretty: real -> real): (ls: Lines)
    requires FullDescriptors(kps)
  {
    [[|kps| as real, DescriptorDim as real]] + KeypointsLines(kps, pretty)
  }

  /** A keyfile holds one header line and eight lines per keypoint, each
      line at most twenty numbers. */
  lemma KeyfileShape(kps: seq<Keypoint>, pretty: real -> real)
    requires FullDescriptors(kps)
    ensures |Keyfile(kps, pretty)| == 1 + 8 * |kps|
    ensures forall i :: 0 <= i < |kps| ==>
              var ls := KeypointLines(kps[i], pretty);
              |ls[0]| == 4 && (forall j :: 1 <= j < 7 ==> |ls[j]| == LineWidth) && |ls[7]| == 8
  {
    forall i | 0 <= i < |kps|
      ensures var ls := KeypointLines(kps[i], pretty);
              |ls[0]| == 4 && (forall j :: 1 <= j < 7 ==> |ls[j]| == LineWidth) && |ls[7]| == 8
    {
      ChunksShape(Apply(pretty, kps[i].descriptor[..DescriptorDim]));
    }
  }

  /** A descriptor value after a full line opens a new line. */
  lemma NewLineStep(pre: Lines, s: seq<real>, x: real, done: Lines, line: seq<real>)
    requires done + [line] == pre + Chunks(s) && |s| % LineWidth == 0
    ensures (done + [line]) + [[x]] == pre + Chunks(s + [x])
  {
    ChunksSnoc(s, x);
    assert (pre + Chunks(s)) + [[x]] == pre + (Chunks(s) + [[x]]);
  }

  /** A descriptor value after a line not yet full extends that line. */
  lemma SameLineStep(pre: Lines, s: seq<real>, x: real, done: Lines, line: seq<real>)
    requires done + [line] == pre + Chunks(s) && |s| % LineWidth != 0
    ensures done + [line + [x]] == pre + Chunks(s + [x])
  {
    ChunksSnoc(s, x);
    var cs := Chunks(s);
    var init, last := cs[..|cs| - 1], cs[|cs| - 1];
    assert cs == init + [last];
    assert pre + cs == (pre + init) + [last];
    assert |done| == |pre + init|;
    assert done == (done + [line])[..|done|] && line == (done + [line])[|done|];
    assert pre + init == ((pre + init) + [last])[..|done|];
    assert (pre + init) + [last + [x]] == pre + (init + [last + [x]]);
  }

  /** The lines `generate_keyfiles` writes for one keypoint, with the line
      break before every twentieth descriptor value. */
  method WriteKeypoint(kp: Keypoint, pretty: real -> real) returns (ls: Lines)
    requires |kp.descriptor| >= DescriptorDim
    ensures ls == KeypointLines(kp, pretty)
  {
    ghost var pd := Apply(pretty, kp.descriptor[..DescriptorDim]);
    var head := [kp.y, kp.x, kp.scale, kp.rotation];
    var done: Lines := [];
    var line := head;
    for i := 0 to DescriptorDim
      invariant done + [line] == [head] + Chunks(pd[..i])
    {
      assert pd[..i + 1] == pd[..i] + [pd[i]] && |pd[..i]| == i;
      assert pd[i] == pretty(kp.descriptor[i]);
      if i % LineWidth == 0 {
        NewLineStep([head], pd[..i], pd[i], done, line);
        done := done + [line];
        line := [];
        assert line + [pd[i]] == [pd[i]];
      } else {
        SameLineStep([head], pd[..i], pd[i], done, line);
      }
      line := line + [pretty(kp.descriptor[i])];
    }
    assert pd[..DescriptorDim] == pd;
    ls := done + [line];
  }

  /** The lines of one keyfile, written keypoint after keypoint. */
  method WriteKeyfile(kps: seq<Keypoint>, pretty: real -> real) returns (ls: Lines)
    requires FullDescriptors(kps)
    ensures ls == Keyfile(kps, pretty)
  {
    ls := [[|kps| as real, DescriptorDim as real]];
    var rest := kps;
    while |rest| > 0
      invariant FullDescriptors(rest)
      invariant ls + KeypointsLines(rest, pretty) == Keyfile(kps, pretty)
    {
      var kl := WriteKeypoint(rest[0], pretty);
      assert ls + KeypointsLines(rest, pretty) == (ls + kl) + KeypointsLines(rest[1..], pretty);
      ls := ls + kl;
      rest := rest[1..];
    }
  }

  /** A keyfile as written, named by its image id. */
  datatype WrittenKeyfile = WrittenKeyfile(id: nat, lines: Lines)

  /** Every stored image holds full descriptors. */
  predicate AllFull(db: seq<StoredImage>)
  {
    forall i :: 0 <= i < |db| ==> FullDescriptors(db[i].keypoints)
  }

  /** The keyfile of image `id`: none when the image is not stored or has
      no keypoints. */
  function KeyfileOf(db: seq<StoredImage>, id: nat, pretty: real -> real): (f: Option<WrittenKeyfile>)
    requires AllFull(db)
    ensures f.Some? <==> IndexOf(db, id).Some? && |db[IndexOf(db, id).value].keypoints| > 0
    ensures f.Some? ==> f.value.id == id
  {
    match IndexOf(db, id)
    case None => None
    case Some(k) =>
      if |db[k].keypoints| == 0 then None
      else Some(WrittenKeyfile(id, Keyfile(db[k].keypoints, pretty)))
  }

  /** The keyfiles written for the images `ids`, one after the other; an
      image not stored or one without keypoints is an `invalid_argument`
      that ends the writing, the keyfiles before it being written. */
  function Keyfiles(db: seq<StoredImage>, ids: seq<nat>, pretty: real -> real): (res: (seq<WrittenKeyfile>, Status))
    requires AllFull(db)
    ensures |res.0| <= |ids|
    ensures res.1 == Done <==> |res.0| == |ids|
    ensures res.1 == Done || res.1 == Raised(InvalidArgument)
    ensures forall i :: 0 <= i < |res.0| ==> res.0[i].id == ids[i]
  {
    if |ids| == 0 then ([], Done)
    else
      match KeyfileOf(db, ids[0], pretty)
      case None => ([], Raised(InvalidArgument))
      case Some(f) =>
        var rest := Keyfiles(db, ids[1..], pretty);
        ([f] + rest.0, rest.1)
  }

  /** The list file names `./<id>.key` for every keyfile written, in order. */
  function ListedIds(files: seq<WrittenKeyfile>): (ids: seq<nat>)
    ensures |ids| == |files| && forall i :: 0 <= i < |files| ==> ids[i] == files[i].id
  {
    if |files| == 0 then [] else [files[0].id] + ListedIds(files[1..])
  }

  /** The keyfile of one image, written as `generate_keyfiles` writes it,
      or the `invalid_argument` it raises. */
  method WriteImageKeyfile(v: Viewer, id: nat, pretty: real -> real) returns (r: Result<WrittenKeyfile>)
    requires AllFull(v.db)
    ensures r.Ok? <==> KeyfileOf(v.db, id, pretty).Some?
    ensures r.Ok? ==> r.value == KeyfileOf(v.db, id, pretty).value
    ensures r.Fail? ==> r.error == InvalidArgument
  {
    var found := FindByImageId(v.db, id);
    if found.Fail? {
      return Fail(found.error);
    }
    var kps := v.db[found.value].keypoints;
    if |kps| == 0 {
      return Fail(InvalidArgument);
    }
    var lines := WriteKeyfile(kps, pretty);
    return Ok(WrittenKeyfile(id, lines));
  }

  /** `generate_keyfiles` for the images `ids` of the viewer `v`: the
      keyfiles written and the ids named in the list file. */
  method GenerateKeyfiles(v: Viewer, ids: seq<nat>, pretty: real -> real) returns (files: seq<WrittenKeyfile>, listed: seq<nat>, st: Status)
    requires AllFull(v.db)
    ensures (files, st) == Keyfiles(v.db, ids, pretty)
    ensures listed == ListedIds(files)
  {
    ghost var whole := Keyfiles(v.db, ids, pretty);
    files, listed := [], [];
    var rest := ids;
    assert [] + Keyfiles(v.db, rest, pretty).0 == Keyfiles(v.db, rest, pretty).0;
    while |rest| > 0
      invariant files + Keyfiles(v.db, rest, pretty).0 == whole.0
      invariant Keyfiles(v.db, rest, pretty).1 == whole.1
      invariant listed == ListedIds(files)
    {
      var r := WriteImageKeyfile(v, rest[0], pretty);
      if r.Fail? {
        assert files + [] == files;
        return files, listed, Raised(r.error);
      }
      var f := r.value;
      ghost var tail := Keyfiles(v.db, rest[1..], pretty).0;
      assert files + ([f] + tail) == (files + [f]) + tail;
      ListedAppend(files, f);
      files := files + [f];
      listed := listed + [rest[0]];
      rest := rest[1..];
    }
    assert files + [] == files;
    return files, listed, Done;
  }

  lemma ListedAppend(files: seq<WrittenKeyfile>, f: WrittenKeyfile)
    ensures ListedIds(files + [f]) == ListedIds(files) + [f.id]
  {
  }

  /** The token a printed number reads back as: a whole non-negative
      number is printed without a fraction. */
  function Printed(v: real): (t: Token)
    ensures Value(t) == v && t != Other
  {
    if v >= 0.0 && v.Floor as real == v then Numeral(v.Floor) else Decimal(v)
  }

  /** The tokens of a written file. */
  function Tokens(ls: Lines): seq<Token>
  {
    PrintedAll(Flatten(ls))
  }

  function PrintedAll(s: seq<real>): (ts: seq<Token>)
    ensures |ts| == |s| && forall i :: 0 <= i < |s| ==> ts[i] == Printed(s[i])
  {
    if |s| == 0 then [] else [Printed(s[0])] + PrintedAll(s[1..])
  }

  /** The tokens from `pos` on start with numbers of the values `vals`. */
  predicate NumbersAt(toks: seq<Token>, pos: nat, vals: seq<real>)
  {
    pos + |vals| <= |toks| && forall i :: 0 <= i < |vals| ==> NumberOf(toks[pos + i], vals[i])
  }

  /** The token is a number of the value `v`. */
  predicate NumberOf(t: Token, v: real)
  {
    t != Other && Value(t) == v
  }

  /** The token of one printed value. */
  lemma NumbersAtIndex(toks: seq<Token>, pos: nat, vals: seq<real>, i: nat)
    requires NumbersAt(toks, pos, vals) && i < |vals|
    ensures pos + i < |toks| && NumberOf(toks[pos + i], vals[i])
  {
  }

  /** Printed values one after the other. */
  lemma NumbersAtSplit(toks: seq<Token>, pos: nat, a: seq<real>, b: seq<real>)
    requires NumbersAt(toks, pos, a + b)
    ensures NumbersAt(toks, pos, a) && NumbersAt(toks, pos + |a|, b)
  {
    forall i | 0 <= i < |a|
      ensures NumberOf(toks[pos + i], a[i])
    {
      assert (a + b)[i] == a[i];
    }
    forall i | 0 <= i < |b|
      ensures NumberOf(toks[pos + |a| + i], b[i])
    {
      assert (a + b)[|a| + i] == b[i];
    }
  }

  /** Printed values are numbers of those values. */
  lemma PrintedNumbers(vals: seq<real>)
    ensures NumbersAt(PrintedAll(vals), 0, vals)
  {
    forall i | 0 <= i < |vals|
      ensures NumberOf(PrintedAll(vals)[0 + i], vals[i])
    {
      assert PrintedAll(vals)[0 + i] == Printed(vals[i]);
    }
  }

  /** Reading a number as a float gives its value. */
  lemma ReadPrintedFloat(r: Reader, v: real)
    requires r.status == Good && r.pos < |r.toks| && NumberOf(r.toks[r.pos], v)
    ensures ReadFloat(r) == (r.(pos := r.pos + 1), v)
  {
  }

  /** Reading printed numbers as floats gives them back, adapted. */
  lemma {:induction false} ReadPrintedFloats(r: Reader, vals: seq<real>, adapt: real -> real)
    requires r.status == Good && NumbersAt(r.toks, r.pos, vals)
    ensures ReadFloatsAdapted(r, |vals|, adapt) == (r.(pos := r.pos + |vals|), Apply(adapt, vals))
    decreases |vals|
  {
    if |vals| > 0 {
      NumbersAtIndex(r.toks, r.pos, vals, 0);
      var r1 := r.(pos := r.pos + 1);
      assert ReadFloat(r) == (r1, vals[0]);
      NumbersAtSplit(r.toks, r.pos, [vals[0]], vals[1..]);
      assert [vals[0]] + vals[1..] == vals;
      ReadPrintedFloats(r1, vals[1..], adapt);
    }
  }

  /** The numbers of one keypoint's lines. */
  lemma KeypointValues(kp: Keypoint, pretty: real -> real)
    requires |kp.descriptor| >= DescriptorDim
    ensures Flatten(KeypointLines(kp, pretty)) == [kp.y, kp.x, kp.scale, kp.rotation] + Apply(pretty, kp.descriptor[..DescriptorDim])
  {
    var pd := Apply(pretty, kp.descriptor[..DescriptorDim]);
    ChunksFlatten(pd);
    assert Flatten([[kp.y, kp.x, kp.scale, kp.rotation]]) == [kp.y, kp.x, kp.scale, kp.rotation];
    FlattenAppend([[kp.y, kp.x, kp.scale, kp.rotation]], Chunks(pd));
  }

  /** A keypoint as `parse_keyfile` reads back its written lines. */
  function Reread(kp: Keypoint, pretty: real -> real, adaptScale: real -> real, adaptRot: real -> real, adaptDescr: real -> real): (k: Keypoint)
    requires |kp.descriptor| >= DescriptorDim
    ensures k.x == kp.x && k.y == kp.y && k.scale == adaptScale(kp.scale) && k.rotation == adaptRot(kp.rotation)
    ensures |k.descriptor| == DescriptorDim
            && forall i :: 0 <= i < DescriptorDim ==> k.descriptor[i] == adaptDescr(pretty(kp.descriptor[i]))
    ensures k.optfid == None
  {
    Keypoint(kp.x, kp.y, adaptScale(kp.scale), adaptRot(kp.rotation), Apply(adaptDescr, Apply(pretty, kp.descriptor[..DescriptorDim])), None)
  }

  function RereadAll(kps: seq<Keypoint>, pretty: real -> real, adaptScale: real -> real, adaptRot: real -> real, adaptDescr: real -> real): (ks: seq<Keypoint>)
    requires FullDescriptors(kps)
    ensures |ks| == |kps| && forall i :: 0 <= i < |kps| ==> ks[i] == Reread(kps[i], pretty, adaptScale, adaptRot, adaptDescr)
  {
    if |kps| == 0 then [] else [Reread(kps[0], pretty, adaptScale, adaptRot, adaptDescr)] + RereadAll(kps[1..], pretty, adaptScale, adaptRot, adaptDescr)
  }

  /** Reading a keypoint from the numbers `y x scale rotation` and the
      descriptor values `d`. */
  lemma ReadPrintedKeypoint(r: Reader, y: real, x: real, scale: real, rot: real, d: seq<real>,
                            adaptScale: real -> real, adaptRot: real -> real, adaptDescr: real -> real)
    requires r.status == Good && r.pos + 4 <= |r.toks|
    requires NumberOf(r.toks[r.pos], y) && NumberOf(r.toks[r.pos + 1], x)
    requires NumberOf(r.toks[r.pos + 2], scale) && NumberOf(r.toks[r.pos + 3], rot)
    requires NumbersAt(r.toks, r.pos + 4, d)
    ensures var k := KeyfileKeypoint(r, |d|, adaptScale, adaptRot, adaptDescr);
            k.0 == r.(pos := r.pos + 4 + |d|)
            && k.1 == Keypoint(x, y, adaptScale(scale), adaptRot(rot), Apply(adaptDescr, d), None)
  {
    ReadPrintedFloat(r, y);
    var r1 := r.(pos := r.pos + 1);
    ReadPrintedFloat(r1, x);
    var r2 := r1.(pos := r1.pos + 1);
    ReadPrintedFloat(r2, scale);
    var r3 := r2.(pos := r2.pos + 1);
    ReadPrintedFloat(r3, rot);
    var r4 := r3.(pos := r3.pos + 1);
    assert r4 == r.(pos := r.pos + 4);
    ReadPrintedFloats(r4, d, adaptDescr);
  }

  /** Reading the keypoints back from their printed numbers. */
  lemma {:induction false} ReadWrittenKeypoints(r: Reader, kps: seq<Keypoint>, pretty: real -> real,
                                                adaptScale: real -> real, adaptRot: real -> real, adaptDescr: real -> real)
    requires FullDescriptors(kps) && r.status == Good
    requires NumbersAt(r.toks, r.pos, Flatten(KeypointsLines(kps, pretty)))
    ensures KeyfileKeypoints(r, |kps|, KeyfileRead(DescriptorDim, adaptScale, adaptRot, adaptDescr))
              == (RereadAll(kps, pretty, adaptScale, adaptRot, adaptDescr), true)
    decreases |kps|
  {
    if |kps| > 0 {
      var kp := kps[0];
      var pd := Apply(pretty, kp.descriptor[..DescriptorDim]);
      var first := Flatten(KeypointLines(kp, pretty));
      FlattenAppend(KeypointLines(kp, pretty), KeypointsLines(kps[1..], pretty));
      NumbersAtSplit(r.toks, r.pos, first, Flatten(KeypointsLines(kps[1..], pretty)));
      KeypointValues(kp, pretty);
      var head := [kp.y, kp.x, kp.scale, kp.rotation];
      NumbersAtSplit(r.toks, r.pos, head, pd);
      NumbersAtIndex(r.toks, r.pos, head, 0);
      NumbersAtIndex(r.toks, r.pos, head, 1);
      NumbersAtIndex(r.toks, r.pos, head, 2);
      NumbersAtIndex(r.toks, r.pos, head, 3);
      ReadPrintedKeypoint(r, kp.y, kp.x, kp.scale, kp.rotation, pd, adaptScale, adaptRot, adaptDescr);
      ReadWrittenKeypoints(r.(pos := r.pos + |first|), kps[1..], pretty, adaptScale, adaptRot, adaptDescr);
      assert KeyfileRead(DescriptorDim, adaptScale, adaptRot, adaptDescr)(r)
        == KeyfileKeypoint(r, DescriptorDim, adaptScale, adaptRot, adaptDescr);
    }
  }

  /** A keyfile `generate_keyfiles` writes is read back by `parse_keyfile`:
      the header announces the count and the dimension 128, and every
      keypoint comes back with its position, its adapted scale and
      rotation and its printed, adapted descriptor. */
  lemma {:induction false} KeyfileRoundTrip(kps: seq<Keypoint>, pretty: real -> real,
                         adaptScale: real -> real, adaptRot: real -> real, adaptDescr: real -> real)
    requires FullDescriptors(kps)
    ensures var toks := Tokens(Keyfile(kps, pretty));
            var h := KeyfileHeader(toks);
            h.0.status == Good && h.1 == |kps| && h.2 == DescriptorDim
            && KeyfileKeypoints(h.0, h.1, KeyfileRead(h.2, adaptScale, adaptRot, adaptDescr))
                 == (RereadAll(kps, pretty, adaptScale, adaptRot, adaptDescr), true)
  {
    var header: Lines := [[|kps| as real, DescriptorDim as real]];
    var body := Flatten(KeypointsLines(kps, pretty));
    FlattenAppend(header, KeypointsLines(kps, pretty));
    assert Flatten(header) == [|kps| as real, DescriptorDim as real];
    var toks := Tokens(Keyfile(kps, pretty));
    assert NumbersAt(toks, 0, [|kps| as real, DescriptorDim as real] + body) by {
      PrintedNumbers(Flatten(Keyfile(kps, pretty)));
    }
    NumbersAtSplit(toks, 0, [|kps| as real, DescriptorDim as real], body);
    assert toks[0] == Numeral(|kps|) && toks[1] == Numeral(DescriptorDim);
    assert KeyfileHeader(toks) == (Reader(toks, 2, Good), |kps|, DescriptorDim);
    ReadWrittenKeypoints(Reader(toks, 2, Good), kps, pretty, adaptScale, adaptRot, adaptDescr);
  }
}
