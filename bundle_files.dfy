/** What Bundler's `RadialUndistort` and `Bundle2PMVS` tools share: the
    image list reader (the two tools carry the same `ReadListFile`) and the
    reading of a bundle file, record by record, as both tools' `fscanf`
    calls consume it.  A bundle file is its first line and the numbers that
    follow it; a number is written as an integer or not. */
module BundleFiles {
  import opened Wrappers
  import opened Math3D

  // ---------------------------------------------------------------------
  // The list file

  /** The size of the line buffer `fgets` fills. */
  const LineBuffer: nat := 256

  /** The index of the first `c` in `s`, or `|s|` when there is none. */
  function FindChar(s: string, c: char): (r: nat)
    ensures r <= |s| && c !in s[..r] && (r < |s| ==> s[r] == c)
  {
    if |s| == 0 then 0 else if s[0] == c then 0 else 1 + FindChar(s[1..], c)
  }

  /** What one `fgets(buf, 256, f)` reads: up to and including the next
      newline, and never more than 255 characters. */
  function Fgets(s: string): (chunk: string)
    requires |s| > 0
    ensures 0 < |chunk| <= |s| && |chunk| < LineBuffer && chunk == s[..|chunk|]
    ensures NewlineAtMostLast(chunk)
  {
    var lim := if |s| < LineBuffer - 1 then |s| else LineBuffer - 1;
    var e := FindChar(s[..lim], '\n');
    assert s[..lim][..e] == s[..e];
    if e < lim then s[..e + 1] else s[..lim]
  }

  /** A newline, if any, only at the end. */
  predicate NewlineAtMostLast(chunk: string)
  {
    |chunk| > 0 && '\n' !in chunk[..|chunk| - 1]
  }

  /** One entry of the list: the chunk as `ReadListFile` cuts it, by
      writing a NUL over its newline and over its first space. */
  function ListEntry(chunk: string): (name: string)
    requires NewlineAtMostLast(chunk)
    ensures ' ' !in name && '\n' !in name && |name| <= |chunk|
  {
    var line := if chunk[|chunk| - 1] == '\n' then chunk[..|chunk| - 1] else chunk;
    line[..FindChar(line, ' ')]
  }

  /** The entries of a list file. */
  function ListEntries(content: string): (names: seq<string>)
    decreases |content|
  {
    if |content| == 0 then [] else [ListEntry(Fgets(content))] + ListEntries(content[|Fgets(content)|..])
  }

  /** `ReadListFile`: every `fgets` chunk, its newline cut off and cut at
      its first space, is appended to the list. */
  method ReadListFile(content: string) returns (files: seq<string>)
    ensures files == ListEntries(content)
  {
    files := [];
    var rest := content;
    NoPrefix(ListEntries(content));
    while |rest| > 0
      invariant files + ListEntries(rest) == ListEntries(content)
      decreases |rest|
    {
      var buf := Fgets(rest);
      rest := rest[|buf|..];
      var name := ListEntry(buf);
      Snoc(files, name, ListEntries(rest));
      files := files + [name];
    }
    assert files + [] == files;
  }

  lemma NoPrefix<T>(xs: seq<T>)
    ensures [] + xs == xs
  {
  }

  lemma Snoc<T>(xs: seq<T>, x: T, ys: seq<T>)
    ensures xs + ([x] + ys) == (xs + [x]) + ys
  {
  }

  /** A list file naming the images, one per line. */
  function ListText(names: seq<string>): (content: string)
  {
    if |names| == 0 then [] else names[0] + "\n" + ListText(names[1..])
  }

  /** A name the list reader reads back as written: no space, no newline,
      and short enough for one `fgets` together with its newline. */
  predicate ListableName(name: string)
  {
    |name| < LineBuffer - 1 && ' ' !in name && '\n' !in name
  }

  /** Reading a list file back gives the names written to it. */
  lemma {:induction false} ListRoundTrip(names: seq<string>)
    requires forall i :: 0 <= i < |names| ==> ListableName(names[i])
    ensures ListEntries(ListText(names)) == names
  {
    if |names| > 0 {
      ReadListedLine(names[0], ListText(names[1..]));
      ListRoundTrip(names[1..]);
      assert names == [names[0]] + names[1..];
    }
  }

  /** One line written for a listable name is read as one chunk, and that
      chunk yields the name. */
  lemma ReadListedLine(name: string, rest: string)
    requires ListableName(name)
    ensures Fgets(name + "\n" + rest) == name + "\n"
    ensures ListEntry(name + "\n") == name
    ensures (name + "\n" + rest)[|name| + 1..] == rest
  {
    var content := name + "\n" + rest;
    var lim := if |content| < LineBuffer - 1 then |content| else LineBuffer - 1;
    assert content[..lim][|name|] == '\n';
    assert content[..lim][..|name|] == name;
    assert FindChar(content[..lim], '\n') == |name|;
    assert (name + "\n")[..|name|] == name;
    assert FindChar(name, ' ') == |name|;
  }

  /** The names a list file yields never hold a space or a newline, and a
      chunk yields at most 255 characters. */
  lemma {:induction false} ListEntriesPlain(content: string)
    ensures forall i :: 0 <= i < |ListEntries(content)| ==>
              ' ' !in ListEntries(content)[i] && '\n' !in ListEntries(content)[i] && |ListEntries(content)[i]| < LineBuffer
    decreases |content|
  {
    if |content| > 0 {
      ListEntriesPlain(content[|Fgets(content)|..]);
    }
  }

  // ---------------------------------------------------------------------
  // The bundle file

  /** A number of a bundle file after its first line, as written: an
      integer, or a number with a fraction or an exponent. */
  datatype Field = Int(i: int) | Real(r: real)

  /** A bundle file: the first line (what `fgets` reads of it) and the
      numbers after it. */
  datatype BundleText = BundleText(firstLine: string, fields: seq<Field>)

  /** What `%lf` reads from a number. */
  function RealOf(x: Field): real
  {
    match x
    case Int(i) => i as real
    case Real(r) => r
  }

  /** What `%lf` reads from consecutive numbers. */
  function Reals(xs: seq<Field>): (rs: seq<real>)
    ensures |rs| == |xs| && forall i :: 0 <= i < |xs| ==> rs[i] == RealOf(xs[i])
  {
    seq(|xs|, i requires 0 <= i < |xs| => RealOf(xs[i]))
  }

  /** What `%d` reads at `p`: only an integer. */
  function IntAt(fs: seq<Field>, p: nat): (r: Option<int>)
    ensures r.Some? <==> p < |fs| && fs[p].Int?
  {
    if p < |fs| && fs[p].Int? then Some(fs[p].i) else None
  }

  /** The header line of bundle files from version 0.2 on. */
  const HashHeader: string := "# Bundle file v"

  /** The version, the counts, and where the cameras start. */
  datatype Header = Header(version: real, numImages: int, numPoints: int, next: nat)

  /** The counts after a version line. */
  function CountsAfterVersion(fs: seq<Field>, version: real): (h: Option<Header>)
    ensures h.Some? ==> h.value.version == version && h.value.next == 2 <= |fs|
  {
    match (IntAt(fs, 0), IntAt(fs, 1))
    case (Some(m), Some(n)) => Some(Header(version, m, n, 2))
    case _ => None
  }

  /** `ReadBundleFile`'s header: a first line `# Bundle file v<version>`
      or `v<version>` holds the version and the counts follow on the next
      line; any other first line holds the counts, and the version is 0.1.
      `scanReal` and `scanCounts` are `sscanf`'s `%lf` and `%d %d`.  A
      first line whose version or counts cannot be scanned leaves them
      indeterminate; the model reports `None`. */
  function ReadHeader(b: BundleText, scanReal: string -> Option<real>, scanCounts: string -> Option<(int, int)>): (h: Option<Header>)
    ensures h.Some? ==> h.value.next <= |b.fields|
    ensures h.Some? && (|b.firstLine| == 0 || b.firstLine[0] !in "#v") ==>
              h.value.version == 0.1 && h.value.next == 0
    ensures h.Some? && |b.firstLine| > 0 && b.firstLine[0] in "#v" ==> h.value.next == 2
  {
    var first := b.firstLine;
    if |first| > 0 && first[0] == '#' then
      if HashHeader <= first then
        match scanReal(first[|HashHeader|..])
        case Some(v) => CountsAfterVersion(b.fields, v)
        case None => None
      else None
    else if |first| > 0 && first[0] == 'v' then
      match scanReal(first[1..])
      case Some(v) => CountsAfterVersion(b.fields, v)
      case None => None
    else
      match scanCounts(first)
      case Some((m, n)) => Some(Header(0.1, m, n, 0))
      case None => None
  }

  /** A camera as read: focal length, the distortion parameters when the
      version has them, rotation (row by row) and translation. */
  datatype CameraRecord = CameraRecord(f: real, k: Option<(real, real)>, R: seq<real>, t: seq<real>)

  /** The numbers of a camera's first line: 1 before version 0.2, else 3. */
  function FocalFields(version: real): nat
  {
    if version < 0.2 then 1 else 3
  }

  /** The `fscanf` calls of one camera, from `p`. */
  function ReadCamera(fs: seq<Field>, p: nat, version: real): (r: Option<(CameraRecord, nat)>)
    ensures r.Some? ==> var c := r.value.0;
              |c.R| == 9 && |c.t| == 3 && (c.k.Some? <==> version >= 0.2)
              && r.value.1 == p + FocalFields(version) + 12 <= |fs|
  {
    var w := FocalFields(version);
    if p + w + 12 > |fs| then None
    else
      var k := if version < 0.2 then None else Some((RealOf(fs[p + 1]), RealOf(fs[p + 2])));
      Some((CameraRecord(RealOf(fs[p]), k, Reals(fs[p + w..p + w + 9]), Reals(fs[p + w + 9..p + w + 12])), p + w + 12))
  }

  /** A view as read: image, key, and the position in the image from
      version 0.3 on (before, `x` and `y` stay indeterminate). */
  datatype ViewRecord = ViewRecord(image: int, key: int, xy: Option<(real, real)>)

  /** The `fscanf` calls of one view, from `p`. */
  function ReadView(fs: seq<Field>, p: nat, version: real): (r: Option<(ViewRecord, nat)>)
    ensures r.Some? ==> (r.value.0.xy.Some? <==> version >= 0.3) && p < r.value.1 <= |fs|
  {
    match (IntAt(fs, p), IntAt(fs, p + 1))
    case (Some(image), Some(key)) =>
      if version >= 0.3 then
        if p + 4 <= |fs| then Some((ViewRecord(image, key, Some((RealOf(fs[p + 2]), RealOf(fs[p + 3])))), p + 4))
        else None
      else Some((ViewRecord(image, key, None), p + 2))
    case _ => None
  }

  /** `n` records read one after the other from `p` by `read` (none when
      `n` is not positive), and where they end. */
  function Repeat<T>(read: nat -> Option<(T, nat)>, p: nat, n: int): (r: Option<(seq<T>, nat)>)
    ensures r.Some? ==> |r.value.0| == if n < 0 then 0 else n
    decreases n
  {
    if n <= 0 then Some(([], p))
    else match read(p)
      case None => None
      case Some((x, q)) =>
        match Repeat(read, q, Pred(n))
        case None => None
        case Some((xs, e)) => Some(([x] + xs, e))
  }

  /** The count of records left after one more is read. */
  function Pred(n: int): (m: int)
    requires n > 0
    ensures m + 1 == n && m >= 0
  {
    n - 1
  }

  /** Records already read, before those still to read. */
  function Prefixed<T>(done: seq<T>, r: Option<(seq<T>, nat)>): Option<(seq<T>, nat)>
  {
    match r
    case None => None
    case Some((xs, e)) => Some((done + xs, e))
  }

  /** Nothing read before. */
  lemma PrefixedNothing<T>(r: Option<(seq<T>, nat)>)
    ensures Prefixed([], r) == r
  {
    match r
    case None =>
    case Some((xs, e)) => assert [] + xs == xs;
  }

  /** One more record read. */
  lemma RepeatStep<T>(read: nat -> Option<(T, nat)>, p: nat, n: int, done: seq<T>)
    requires n > 0 && read(p).Some?
    ensures Prefixed(done, Repeat(read, p, n)) == Prefixed(done + [read(p).value.0], Repeat(read, read(p).value.1, Pred(n)))
  {
    var x := read(p).value.0;
    match Repeat(read, read(p).value.1, Pred(n))
    case None =>
    case Some((xs, e)) =>
      assert done + ([x] + xs) == (done + [x]) + xs;
  }

  /** A record followed by a run of records is a longer run. */
  lemma RepeatCons<T>(read: nat -> Option<(T, nat)>, p: nat, n: int, x: T, q: nat, xs: seq<T>, e: nat)
    requires n > 0 && read(p) == Some((x, q)) && Repeat(read, q, Pred(n)) == Some((xs, e))
    ensures Repeat(read, p, n) == Some(([x] + xs, e))
  {
  }

  /** The reader of one view. */
  function ViewReader(fs: seq<Field>, version: real): nat -> Option<(ViewRecord, nat)>
  {
    p => ReadView(fs, p, version)
  }

  /** The loop over a point's views: `n` views are read and kept in order. */
  method ReadViews(fs: seq<Field>, p: nat, n: int, version: real) returns (r: Option<(seq<ViewRecord>, nat)>)
    ensures r == Repeat(ViewReader(fs, version), p, n)
  {
    var views: seq<ViewRecord> := [];
    var pos := p;
    var left := n;
    PrefixedNothing(Repeat(ViewReader(fs, version), p, n));
    while left > 0
      invariant Prefixed(views, Repeat(ViewReader(fs, version), pos, left)) == Prefixed([], Repeat(ViewReader(fs, version), p, n))
      decreases left
    {
      var v := ReadView(fs, pos, version);
      if v.None? {
        return None;
      }
      RepeatStep(ViewReader(fs, version), pos, left, views);
      views := views + [v.value.0];
      pos := v.value.1;
      left := Pred(left);
    }
    assert views + [] == views;
    r := Some((views, pos));
  }

  /** A point as read: position, colour, the number of views, and the
      views read. */
  datatype PointRecord = PointRecord(pos: Vec3, color: Vec3, numVisible: int, views: seq<ViewRecord>)

  /** The `fscanf` calls of a point before its views, from `p`. */
  function ReadPointHead(fs: seq<Field>, p: nat): (r: Option<(Vec3, Vec3, int, nat)>)
    ensures r.Some? ==> r.value.3 == p + 7 <= |fs|
  {
    if p + 7 > |fs| then None
    else match IntAt(fs, p + 6)
      case None => None
      case Some(n) =>
        Some((Vec3(RealOf(fs[p]), RealOf(fs[p + 1]), RealOf(fs[p + 2])),
              Vec3(RealOf(fs[p + 3]), RealOf(fs[p + 4]), RealOf(fs[p + 5])), n, p + 7))
  }

  /** The `fscanf` calls of one point, from `p`. */
  function ReadPoint(fs: seq<Field>, p: nat, version: real): (r: Option<(PointRecord, nat)>)
    ensures r.Some? ==> |r.value.0.views| == if r.value.0.numVisible < 0 then 0 else r.value.0.numVisible
  {
    match ReadPointHead(fs, p)
    case None => None
    case Some((pos, color, n, q)) =>
      match Repeat(ViewReader(fs, version), q, n)
      case None => None
      case Some((views, e)) => Some((PointRecord(pos, color, n, views), e))
  }

  /** The `fscanf` calls of one point, its views by the loop. */
  method ReadPointAt(fs: seq<Field>, p: nat, version: real) returns (r: Option<(PointRecord, nat)>)
    ensures r == ReadPoint(fs, p, version)
  {
    var head := ReadPointHead(fs, p);
    if head.None? {
      return None;
    }
    var (position, color, numVisible, q) := head.value;
    var views := ReadViews(fs, q, numVisible, version);
    if views.None? {
      return None;
    }
    return Some((PointRecord(position, color, numVisible, views.value.0), views.value.1));
  }

  /** A point read has as many views as its count says (none for a
      count that is not positive). */
  predicate ViewsCounted(rec: PointRecord)
  {
    |rec.views| == if rec.numVisible < 0 then 0 else rec.numVisible
  }

  /** Every point of a run of points read has its views counted. */
  lemma {:induction false} PointsCounted(fs: seq<Field>, version: real, p: nat, n: int)
    ensures Repeat(PointReader(fs, version), p, n).Some? ==>
              forall i :: 0 <= i < |Repeat(PointReader(fs, version), p, n).value.0| ==> ViewsCounted(Repeat(PointReader(fs, version), p, n).value.0[i])
    decreases n
  {
    if n > 0 && PointReader(fs, version)(p).Some? {
      var q := PointReader(fs, version)(p).value.1;
      PointsCounted(fs, version, q, Pred(n));
    }
  }

  function CameraReader(fs: seq<Field>, version: real): nat -> Option<(CameraRecord, nat)>
  {
    p => ReadCamera(fs, p, version)
  }

  function PointReader(fs: seq<Field>, version: real): nat -> Option<(PointRecord, nat)>
  {
    p => ReadPoint(fs, p, version)
  }
}
