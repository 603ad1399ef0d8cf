/** The per-image-pair keypoint matcher `kmatcher2` and its helpers
    (src/kmatcher/main.cpp).

    A strategy is an association of a feature of the first image with one
    of its nearest features in the second image; the compatibility matrix
    of the strategies is a row-major `n*n` array, as in the source.  In
    this file `active[i] == true` means strategy `i` is STILL ACTIVE (the
    opposite of the masks of `IIDyn`).  `exp`, `sin`, `cos` and `sqrt` are
    parameters, and the values `rand()` returns are an input. */
module KMatcher {
  import opened Wrappers
  import IIDyn
  import Arith

  // ---------------------------------------------------------------------
  // Data

  datatype Feature = Feature(descr: seq<real>, scale: real, ori: real, x: real, y: real, index: int)

  /** A strategy: feature `source` of the first image matched with feature
      `target` of the second, with the similarity transform that maps the
      one onto the other. */
  datatype Association = Association(source: nat, target: nat,
                                     sinAlpha: real, cosAlpha: real,
                                     deltaX: real, deltaY: real, deltaScale: real)

  /** The command-line parameters `arg__*` and the search radius. */
  datatype Params = Params(neighbours: nat, maxIterations: nat,
                           averagePayoffThreshold: real, payoffAlpha: real,
                           qualityThreshold: real, minGoodStrategies: nat,
                           radius: real)

  /** The transcendental functions of the C library the matcher calls. */
  datatype Maths = Maths(exp: real -> real, sin: real -> real, cos: real -> real, sqrt: real -> real)

  /** Bundler needs at least this many matches for an image pair. */
  const MinWrittenMatches: nat := 17
  /** Termination threshold and iteration cap handed to `iidyn`. */
  const TerminationThreshold: real := 0.000000000000001
  const IidynMaxIterations: int := 10000
  /** `DEV_STD`: the perturbation moves less than this many percent. */
  const DevStd: nat := 5

  // ---------------------------------------------------------------------
  // Flat matrix indices

  /** Row and column of flat index `p` in a matrix of width `w`. */
  function RowOf(p: nat, w: nat): nat { if w == 0 then 0 else p / w }
  function ColOf(p: nat, w: nat): nat { if w == 0 then 0 else p % w }

  /** Cell `(r, c)` of a row-major `h`-by-`w` matrix lies at `r*w + c`, and
      that index gives back its row and column. */
  lemma Cell(w: nat, h: nat, r: nat, c: nat)
    requires r < h && c < w
    ensures r * w + c < h * w && r * w + w <= h * w
    ensures RowOf(r * w + c, w) == r && ColOf(r * w + c, w) == c
  {
    var p := r * w + c;
    assert r * w + w == (r + 1) * w;
    Arith.MulAtLeast(h - r, w);
    assert (h - r) * w == h * w - r * w;
    var q, m := p / w, p % w;
    assert q * w + m == p;
    if q < r {
      assert (r - q) * w + c == m;
      Arith.MulAtLeast(r - q, w);
    } else if q > r {
      assert (q - r) * w + m == c;
      Arith.MulAtLeast(q - r, w);
    }
  }

  /** Every flat index of an `h`-by-`w` matrix has a row below `h` and a
      column below `w`. */
  lemma RowCol(w: nat, h: nat, p: nat)
    requires p < h * w
    ensures RowOf(p, w) < h && ColOf(p, w) < w && RowOf(p, w) * w + ColOf(p, w) == p
  {
    var q := p / w;
    assert q * w + p % w == p;
    if q >= h {
      Arith.MulAtLeast(q - h + 1, w);
      assert false;
    }
  }

  /** The `i`-th block of `w` entries lies inside an `h`-by-`w` matrix. */
  lemma BlockBounds(w: nat, h: nat, i: nat)
    requires i < h
    ensures i * w + w <= h * w
  {
    assert h * w - i * w == (h - i) * w;
    Arith.MulAtLeast(h - i, w);
  }

  // ---------------------------------------------------------------------
  // Nearest neighbours

  /** Squared Euclidean distance over the first `|a|` descriptor entries. */
  function SquaredDistance(a: seq<real>, b: seq<real>): (d: real)
    requires |a| <= |b|
    ensures d >= 0.0
  {
    if |a| == 0 then 0.0
    else
      var t := a[|a| - 1] - b[|a| - 1];
      SquaredDistance(a[..|a| - 1], b) + t * t
  }

  predicate DescriptorsFit(f1: Feature, f2: seq<Feature>)
  {
    forall i :: 0 <= i < |f2| ==> |f1.descr| <= |f2[i].descr|
  }

  /** Descriptor distance from `f1` to every feature of `f2`. */
  function Distances(f1: Feature, f2: seq<Feature>, sqrt: real -> real): (ds: seq<real>)
    requires DescriptorsFit(f1, f2)
    ensures |ds| == |f2|
  {
    seq(|f2|, i requires 0 <= i < |f2| => sqrt(SquaredDistance(f1.descr, f2[i].descr)))
  }

  /** `r` lists distinct indices of `ds` by non-decreasing distance, and no
      index left out is closer than any index listed. */
  predicate NearestFirst(ds: seq<real>, r: seq<nat>)
  {
    (forall i :: 0 <= i < |r| ==> r[i] < |ds|)
    && (forall i, j :: 0 <= i < j < |r| ==> r[i] != r[j] && ds[r[i]] <= ds[r[j]])
    && (forall i, j :: 0 <= i < |r| && 0 <= j < |ds| && j !in r ==> ds[r[i]] <= ds[j])
  }

  function MinNat(a: nat, b: nat): nat { if a <= b then a else b }

  /** The descriptor distance loop of `neighbours` for one feature. */
  method DescriptorDistance(f1: Feature, feat: Feature, sqrt: real -> real) returns (d: real)
    requires |f1.descr| <= |feat.descr|
    ensures d == sqrt(SquaredDistance(f1.descr, feat.descr))
  {
    var total := 0.0;
    var j := 0;
    while j < |f1.descr|
      invariant 0 <= j <= |f1.descr|
      invariant total == SquaredDistance(f1.descr[..j], feat.descr)
    {
      assert f1.descr[..j + 1][..j] == f1.descr[..j];
      var t0 := f1.descr[j] - feat.descr[j];
      total := total + t0 * t0;
      j := j + 1;
    }
    assert f1.descr[..j] == f1.descr;
    d := sqrt(total);
  }

  /** `neighbours`: the `min(|f2|, k)` features of `f2` nearest to `f1`,
      nearest first; `runtime_error` when that count is 0.  The source sorts
      all distances and keeps a prefix; the model selects the nearest
      remaining index `nn` times, which yields a list the sort may yield. */
  method Neighbours(f1: Feature, f2: seq<Feature>, k: nat, sqrt: real -> real)
    returns (r: Result<seq<nat>>)
    requires DescriptorsFit(f1, f2)
    ensures r.Fail? <==> MinNat(|f2|, k) == 0
    ensures r.Fail? ==> r.error == RuntimeError
    ensures r.Ok? ==> |r.value| == MinNat(|f2|, k) && NearestFirst(Distances(f1, f2, sqrt), r.value)
  {
    var ds := new real[|f2|];
    var i := 0;
    while i < |f2|
      invariant 0 <= i <= |f2|
      invariant forall t :: 0 <= t < i ==> ds[t] == Distances(f1, f2, sqrt)[t]
    {
      ds[i] := DescriptorDistance(f1, f2[i], sqrt);
      i := i + 1;
    }
    assert ds[..] == Distances(f1, f2, sqrt);
    var nn := MinNat(|f2|, k);
    if nn == 0 {
      return Fail(RuntimeError);
    }
    var neighs := SelectNearest(ds, nn);
    r := Ok(neighs);
  }

  /** The state of the selection: `taken` marks exactly the indices of `r`,
      which is nearest first, and nothing left is closer than what was taken. */
  ghost predicate Selected(ds: seq<real>, taken: seq<bool>, r: seq<nat>)
  {
    |taken| == |ds|
    && (forall j :: 0 <= j < |ds| ==> (taken[j] <==> j in r))
    && (forall i :: 0 <= i < |r| ==> r[i] < |ds|)
    && (forall i, j :: 0 <= i < j < |r| ==> r[i] != r[j] && ds[r[i]] <= ds[r[j]])
    && (forall i, j :: 0 <= i < |r| && 0 <= j < |ds| && !taken[j] ==> ds[r[i]] <= ds[j])
  }

  /** Taking the nearest index not yet taken keeps the selection nearest first. */
  lemma SelectStep(ds: seq<real>, taken: seq<bool>, r: seq<nat>, best: nat)
    requires Selected(ds, taken, r) && best < |ds| && !taken[best]
    requires forall t :: 0 <= t < |ds| && !taken[t] ==> ds[best] <= ds[t]
    ensures Selected(ds, taken[best := true], r + [best])
  {
    var r' := r + [best];
    forall j | 0 <= j < |ds|
      ensures taken[best := true][j] <==> j in r'
    {
      assert j in r' <==> j in r || j == best;
    }
  }

  /** The `nn` nearest indices of `ds`, nearest first (ties by index). */
  method SelectNearest(ds: array<real>, nn: nat) returns (r: seq<nat>)
    requires nn <= ds.Length
    ensures |r| == nn && NearestFirst(ds[..], r)
  {
    var taken := new bool[ds.Length](_ => false);
    assert taken[..] == IIDyn.NoMask(ds.Length);
    IIDyn.FreeCountNoMask(ds.Length);
    r := [];
    while |r| < nn
      invariant |r| <= nn && taken.Length == ds.Length
      invariant IIDyn.FreeCount(taken[..]) == ds.Length - |r|
      invariant Selected(ds[..], taken[..], r)
      decreases nn - |r|
    {
      IIDyn.FreeCountZero(taken[..]);
      var best := NearestFree(ds, taken);
      ghost var before := taken[..];
      SelectStep(ds[..], before, r, best);
      taken[best] := true;
      assert taken[..] == before[best := true];
      IIDyn.FreeCountSet(before, best);
      r := r + [best];
    }
  }

  /** The first index of least distance among those not taken. */
  method NearestFree(ds: array<real>, taken: array<bool>) returns (best: nat)
    requires taken.Length == ds.Length && exists j :: 0 <= j < taken.Length && !taken[j]
    ensures best < ds.Length && !taken[best]
    ensures forall t :: 0 <= t < ds.Length && !taken[t] ==> ds[best] <= ds[t]
  {
    var b := -1;
    var j := 0;
    while j < ds.Length
      invariant 0 <= j <= ds.Length && -1 <= b < j
      invariant b >= 0 ==> !taken[b] && forall t :: 0 <= t < j && !taken[t] ==> ds[b] <= ds[t]
      invariant b < 0 ==> forall t :: 0 <= t < j ==> taken[t]
    {
      if !taken[j] && (b < 0 || ds[j] < ds[b]) {
        b := j;
      }
      j := j + 1;
    }
    best := b;
  }

  // ---------------------------------------------------------------------
  // Strategies

  /** The strategy matching feature `i` (`src`) with feature `j` (`targ`):
      rotation by the orientation difference and scaling by the scale ratio,
      followed by the translation that carries `src` onto `targ`. */
  function Associate(i: nat, j: nat, src: Feature, targ: Feature, fs: Maths): (a: Association)
    requires src.scale != 0.0
    ensures a.source == i && a.target == j
  {
    var deltaRot := targ.ori - src.ori;
    var cosAlfa := fs.cos(deltaRot);
    var sinAlfa := fs.sin(deltaRot);
    var deltaScale := targ.scale / src.scale;
    var scaledX := src.x * deltaScale;
    var scaledY := src.y * deltaScale;
    var x := scaledX * cosAlfa - scaledY * sinAlfa;
    var y := scaledX * sinAlfa + scaledY * cosAlfa;
    Association(i, j, sinAlfa, cosAlfa, targ.x - x, targ.y - y, deltaScale)
  }

  /** Where the transform of `a` sends the point of `p`. */
  function MapX(a: Association, p: Feature): real
  {
    a.deltaScale * (p.x * a.cosAlpha - p.y * a.sinAlpha) + a.deltaX
  }

  function MapY(a: Association, p: Feature): real
  {
    a.deltaScale * (p.x * a.sinAlpha + p.y * a.cosAlpha) + a.deltaY
  }

  /** A strategy's own transform carries its source point exactly onto its
      target point, whatever `sin` and `cos` return. */
  lemma OwnTransformExact(i: nat, j: nat, src: Feature, targ: Feature, fs: Maths)
    requires src.scale != 0.0
    ensures MapX(Associate(i, j, src, targ, fs), src) == targ.x
    ensures MapY(Associate(i, j, src, targ, fs), src) == targ.y
  {
    var a := Associate(i, j, src, targ, fs);
    var d, c, sn := a.deltaScale, a.cosAlpha, a.sinAlpha;
    assert d * (src.x * c - src.y * sn) == (src.x * d) * c - (src.y * d) * sn;
    assert d * (src.x * sn + src.y * c) == (src.x * d) * sn + (src.y * d) * c;
  }

  predicate Indexes(a: Association, f1: seq<Feature>, f2: seq<Feature>)
  {
    a.source < |f1| && a.target < |f2|
  }

  /** Squared error of carrying `s` by the transform of `a`, compared with
      `t`, in the operand order of the first error term of the source. */
  function ErrorOf(a: Association, s: Feature, t: Feature): real
  {
    var errorX := t.x - (a.deltaScale * (s.x * a.cosAlpha - s.y * a.sinAlpha) + a.deltaX);
    var errorY := t.y - (a.deltaScale * (s.x * a.sinAlpha + s.y * a.cosAlpha) + a.deltaY);
    errorX * errorX + errorY * errorY
  }

  /** The same error in the operand order of the second error term. */
  function ErrorOf2(a: Association, s: Feature, t: Feature): real
  {
    var errorX2 := t.x - (a.deltaScale * (a.cosAlpha * s.x - a.sinAlpha * s.y) + a.deltaX);
    var errorY2 := t.y - (a.deltaScale * (a.sinAlpha * s.x + a.cosAlpha * s.y) + a.deltaY);
    errorX2 * errorX2 + errorY2 * errorY2
  }

  function Max(a: real, b: real): real { if a >= b then a else b }

  /** `getCompatibility`: 0 for two strategies sharing a source or a target;
      otherwise `exp(-alpha * e)` where `e` is the larger of the squared
      errors of carrying each strategy's source point by the other's
      transform. */
  function Compatibility(a1: Association, a2: Association, f1: seq<Feature>, f2: seq<Feature>,
                         alpha: real, exp: real -> real): real
    requires Indexes(a1, f1, f2) && Indexes(a2, f1, f2)
  {
    if a1.source == a2.source || a1.target == a2.target then 0.0
    else
      var s1, s2, t1, t2 := f1[a1.source], f1[a2.source], f2[a1.target], f2[a2.target];
      Payoff(alpha, Max(ErrorOf(a1, s2, t2), ErrorOf2(a2, s1, t1)), exp)
  }

  /** The payoff of a pair of compatible strategies with cross error `e`. */
  function Payoff(alpha: real, e: real, exp: real -> real): real
  {
    exp(-alpha * e)
  }

  lemma ErrorOrders(a: Association, s: Feature, t: Feature)
    ensures ErrorOf(a, s, t) == ErrorOf2(a, s, t)
  {
    assert s.x * a.cosAlpha - s.y * a.sinAlpha == a.cosAlpha * s.x - a.sinAlpha * s.y;
    assert s.x * a.sinAlpha + s.y * a.cosAlpha == a.sinAlpha * s.x + a.cosAlpha * s.y;
  }

  /** Swapping the two strategies swaps the two cross errors inside the
      maximum, so compatibility is symmetric. */
  lemma CompatibilitySymmetric(a1: Association, a2: Association, f1: seq<Feature>, f2: seq<Feature>,
                               alpha: real, exp: real -> real)
    requires Indexes(a1, f1, f2) && Indexes(a2, f1, f2)
    ensures Compatibility(a1, a2, f1, f2, alpha, exp) == Compatibility(a2, a1, f1, f2, alpha, exp)
  {
    if a1.source != a2.source && a1.target != a2.target {
      var s1, s2, t1, t2 := f1[a1.source], f1[a2.source], f2[a1.target], f2[a2.target];
      ErrorOrders(a1, s2, t2);
      ErrorOrders(a2, s1, t1);
    }
  }

  predicate ScalesNonZero(fs: seq<Feature>)
  {
    forall i :: 0 <= i < |fs| ==> fs[i].scale != 0.0
  }

  predicate AllFit(from: seq<Feature>, to: seq<Feature>)
  {
    forall i :: 0 <= i < |from| ==> DescriptorsFit(from[i], to)
  }

  /** Targets of the `k` strategies starting at `base`. */
  function Block(assoc: seq<Association>, base: nat, k: nat): (t: seq<nat>)
    requires base + k <= |assoc|
    ensures |t| == k
  {
    seq<nat>(k, j requires 0 <= j < k => assoc[base + j].target)
  }

  /** The strategy layout of `kmatcher2`: `k` strategies per feature of
      `from`, strategy `i*k + j` pairing feature `i` with the `j`-th entry
      of `nbrs[i]`, the nearest features of `to` nearest first, each
      strategy carrying the transform `Associate` computes. */
  ghost predicate LaidOut(assoc: seq<Association>, from: seq<Feature>, to: seq<Feature>, k: nat, fs: Maths,
                          nbrs: seq<seq<nat>>)
    requires AllFit(from, to) && ScalesNonZero(from)
  {
    |assoc| == |from| * k && |nbrs| == |from|
    && (forall s :: 0 <= s < |assoc| ==>
          Indexes(assoc[s], from, to) && assoc[s].source == RowOf(s, k)
          && assoc[s] == Associate(assoc[s].source, assoc[s].target, from[assoc[s].source], to[assoc[s].target], fs))
    && forall i :: 0 <= i < |from| ==>
         (BlockBounds(k, |from|, i); Block(assoc, i * k, k) == nbrs[i])
         && NearestFirst(Distances(from[i], to, fs.sqrt), nbrs[i])
  }

  lemma Prefix(w: nat, h: nat, i: nat)
    requires i <= h
    ensures i * w <= h * w
  {
    if i < h {
      BlockBounds(w, h, i);
    }
  }

  /** Blocks of `w` entries before block `i` end where block `i` starts. */
  lemma BlockBefore(w: nat, i: nat, t: nat)
    requires t < i
    ensures t * w + w <= i * w
  {
    BlockBounds(w, i, t);
  }

  /** The first `i` blocks of strategies have their sources, and the
      targets listed in `nbrs`. */
  ghost predicate Targeted(a: seq<Association>, from: seq<Feature>, to: seq<Feature>, k: nat,
                           nbrs: seq<seq<nat>>, i: nat)
    requires i <= |from| && |a| == |from| * k
  {
    Prefix(k, |from|, i);
    |nbrs| == i
    && (forall s :: 0 <= s < i * k ==> a[s].source == RowOf(s, k) && a[s].target < |to|)
    && forall t :: 0 <= t < i ==> (BlockBounds(k, |from|, t); Block(a, t * k, k) == nbrs[t])
  }

  /** Block `i` of strategies: feature `i` with each of its neighbours. */
  method FillBlock(assoc: array<Association>, from: seq<Feature>, to: seq<Feature>, k: nat,
                   ghost nbrs: seq<seq<nat>>, i: nat, neighs: seq<nat>)
    requires i < |from| && assoc.Length == |from| * k
    requires |neighs| == k && forall j :: 0 <= j < k ==> neighs[j] < |to|
    requires Targeted(assoc[..], from, to, k, nbrs, i)
    modifies assoc
    ensures Targeted(assoc[..], from, to, k, nbrs + [neighs], i + 1)
  {
    BlockBounds(k, |from|, i);
    ghost var before := assoc[..];
    WriteBlock(assoc, i * k, i, neighs);
    FillBlockDone(before, assoc[..], from, to, k, nbrs, i, neighs);
  }

  /** The inner strategy loop: entries `base` to `base + |neighs| - 1` get
      source `i` and the targets `neighs`, in order. */
  method WriteBlock(assoc: array<Association>, base: nat, i: nat, neighs: seq<nat>)
    requires base + |neighs| <= assoc.Length
    modifies assoc
    ensures forall s :: 0 <= s < assoc.Length && !(base <= s < base + |neighs|) ==> assoc[s] == old(assoc[s])
    ensures forall s :: base <= s < base + |neighs| ==> assoc[s].source == i && assoc[s].target == neighs[s - base]
  {
    var j := 0;
    while j < |neighs|
      invariant 0 <= j <= |neighs|
      invariant forall s :: 0 <= s < assoc.Length && !(base <= s < base + j) ==> assoc[s] == old(assoc[s])
      invariant forall s :: base <= s < base + j ==> assoc[s].source == i && assoc[s].target == neighs[s - base]
    {
      assoc[base + j] := assoc[base + j].(source := i, target := neighs[j]);
      j := j + 1;
    }
  }

  /** The block written by `FillBlock` extends `Targeted` by one block. */
  lemma FillBlockDone(before: seq<Association>, after: seq<Association>, from: seq<Feature>, to: seq<Feature>, k: nat,
                      nbrs: seq<seq<nat>>, i: nat, neighs: seq<nat>)
    requires i < |from| && |before| == |after| == |from| * k
    requires |neighs| == k && forall j :: 0 <= j < k ==> neighs[j] < |to|
    requires Targeted(before, from, to, k, nbrs, i)
    requires i * k + k <= |after|
    requires forall s :: 0 <= s < |after| && !(i * k <= s < i * k + k) ==> after[s] == before[s]
    requires forall s :: i * k <= s < i * k + k ==> after[s].source == i && after[s].target == neighs[s - i * k]
    ensures Targeted(after, from, to, k, nbrs + [neighs], i + 1)
  {
    var base := i * k;
    assert Block(after, base, k) == neighs;
    forall t | 0 <= t < i
      ensures (BlockBounds(k, |from|, t); Block(after, t * k, k) == Block(before, t * k, k))
    {
      BlockBefore(k, i, t);
    }
    forall s | 0 <= s < base + k
      ensures after[s].source == RowOf(s, k) && after[s].target < |to|
    {
      if s >= base {
        Cell(k, |from|, i, s - base);
      }
    }
    assert (i + 1) * k == base + k;
  }

  /** The strategy loops of `kmatcher2`: the nearest neighbours of every
      feature of `from` give the targets (an exception of `neighbours`
      propagates), then every strategy gets its transform. */
  method Layout(from: seq<Feature>, to: seq<Feature>, k: nat, fs: Maths)
    returns (r: Result<seq<Association>>, ghost nbrs: seq<seq<nat>>)
    requires AllFit(from, to) && ScalesNonZero(from)
    requires k <= |to| || |to| == 0
    ensures r.Fail? <==> |from| > 0 && (k == 0 || |to| == 0)
    ensures r.Fail? ==> r.error == RuntimeError
    ensures r.Ok? ==> LaidOut(r.value, from, to, k, fs, nbrs)
  {
    var n := |from| * k;
    var assoc := new Association[n](_ => Association(0, 0, 0.0, 0.0, 0.0, 0.0, 0.0));
    nbrs := [];
    var i := 0;
    while i < |from|
      invariant 0 <= i <= |from| && assoc.Length == n
      invariant i > 0 ==> k > 0 && |to| > 0
      invariant Targeted(assoc[..], from, to, k, nbrs, i)
      invariant forall t :: 0 <= t < i ==> NearestFirst(Distances(from[t], to, fs.sqrt), nbrs[t])
    {
      var neighs := TargetBlock(assoc, from, to, k, fs, nbrs, i);
      if neighs.Fail? {
        return Fail(neighs.error), nbrs;
      }
      nbrs := nbrs + [neighs.value];
      i := i + 1;
    }
    ghost var pre := assoc[..];
    Transforms(assoc, from, to, k, fs);
    LayoutDone(pre, assoc[..], from, to, k, fs, nbrs);
    r := Ok(assoc[..]);
  }

  /** One turn of the first strategy loop: the neighbours of feature `i`
      become the targets of block `i`, or their exception ends the loop. */
  method TargetBlock(assoc: array<Association>, from: seq<Feature>, to: seq<Feature>, k: nat, fs: Maths,
                     ghost nbrs: seq<seq<nat>>, i: nat)
    returns (r: Result<seq<nat>>)
    requires AllFit(from, to) && i < |from| && assoc.Length == |from| * k
    requires k <= |to| || |to| == 0
    requires Targeted(assoc[..], from, to, k, nbrs, i)
    modifies assoc
    ensures r.Fail? <==> k == 0 || |to| == 0
    ensures r.Fail? ==> r.error == RuntimeError
    ensures r.Ok? ==> Targeted(assoc[..], from, to, k, nbrs + [r.value], i + 1)
                      && NearestFirst(Distances(from[i], to, fs.sqrt), r.value)
  {
    r := Neighbours(from[i], to, k, fs.sqrt);
    if r.Ok? {
      FillBlock(assoc, from, to, k, nbrs, i, r.value);
    }
  }

  /** The transforms keep the targets, so the laid-out blocks survive. */
  lemma LayoutDone(pre: seq<Association>, post: seq<Association>, from: seq<Feature>, to: seq<Feature>, k: nat,
                   fs: Maths, nbrs: seq<seq<nat>>)
    requires AllFit(from, to) && ScalesNonZero(from) && |pre| == |post| == |from| * k
    requires Targeted(pre, from, to, k, nbrs, |from|)
    requires forall t :: 0 <= t < |from| ==> NearestFirst(Distances(from[t], to, fs.sqrt), nbrs[t])
    requires forall s :: 0 <= s < |post| ==> post[s].source == pre[s].source && post[s].target == pre[s].target
    requires forall s :: 0 <= s < |post| ==>
               Indexes(post[s], from, to)
               && post[s] == Associate(post[s].source, post[s].target, from[post[s].source], to[post[s].target], fs)
    ensures LaidOut(post, from, to, k, fs, nbrs)
  {
    forall t | 0 <= t < |from|
      ensures (BlockBounds(k, |from|, t); Block(post, t * k, k) == Block(pre, t * k, k))
    {
      BlockBounds(k, |from|, t);
      SameTargets(post, pre, t * k, k);
    }
  }

  lemma SameTargets(a: seq<Association>, b: seq<Association>, base: nat, k: nat)
    requires |a| == |b| && base + k <= |a|
    requires forall s :: 0 <= s < |a| ==> a[s].target == b[s].target
    ensures Block(a, base, k) == Block(b, base, k)
  {
  }

  /** The second strategy loop: the transform of every strategy. */
  method Transforms(assoc: array<Association>, from: seq<Feature>, to: seq<Feature>, k: nat, fs: Maths)
    requires AllFit(from, to) && ScalesNonZero(from) && assoc.Length == |from| * k
    requires forall s :: 0 <= s < assoc.Length ==> assoc[s].source == RowOf(s, k) && assoc[s].target < |to|
    modifies assoc
    ensures forall t :: 0 <= t < assoc.Length ==> assoc[t].source == old(assoc[t].source) && assoc[t].target == old(assoc[t].target)
    ensures forall t :: 0 <= t < assoc.Length ==>
              Indexes(assoc[t], from, to)
              && assoc[t] == Associate(assoc[t].source, assoc[t].target, from[assoc[t].source], to[assoc[t].target], fs)
  {
    var n := assoc.Length;
    var s := 0;
    while s < n
      invariant 0 <= s <= n
      invariant forall t :: 0 <= t < n ==> assoc[t].source == old(assoc[t].source) && assoc[t].target == old(assoc[t].target)
      invariant forall t :: 0 <= t < s ==>
                  Indexes(assoc[t], from, to)
                  && assoc[t] == Associate(assoc[t].source, assoc[t].target, from[assoc[t].source], to[assoc[t].target], fs)
    {
      RowCol(k, |from|, s);
      assoc[s] := Associate(assoc[s].source, assoc[s].target, from[assoc[s].source], to[assoc[s].target], fs);
      s := s + 1;
    }
  }

  // ---------------------------------------------------------------------
  // Compatibility matrix

  predicate AllIndexes(assoc: seq<Association>, f1: seq<Feature>, f2: seq<Feature>)
  {
    forall s :: 0 <= s < |assoc| ==> Indexes(assoc[s], f1, f2)
  }

  /** The payoff matrix of the strategies: cell `(r, c)` holds the
      compatibility of strategies `r` and `c`. */
  function CompatMatrix(assoc: seq<Association>, f1: seq<Feature>, f2: seq<Feature>,
                        alpha: real, exp: real -> real): (m: seq<real>)
    requires AllIndexes(assoc, f1, f2)
    ensures |m| == |assoc| * |assoc|
  {
    var n := |assoc|;
    seq(n * n, p requires 0 <= p < n * n =>
      RowCol(n, n, p);
      Compatibility(assoc[RowOf(p, n)], assoc[ColOf(p, n)], f1, f2, alpha, exp))
  }

  predicate ZeroDiagonal(m: seq<real>, n: nat)
    requires |m| == n * n
  {
    forall r :: 0 <= r < n ==> (Cell(n, n, r, r); m[r * n + r] == 0.0)
  }

  /** The compatibility matrix is symmetric with a zero diagonal. */
  lemma CompatMatrixSymmetric(assoc: seq<Association>, f1: seq<Feature>, f2: seq<Feature>,
                              alpha: real, exp: real -> real)
    requires AllIndexes(assoc, f1, f2)
    ensures IIDyn.Symmetric(CompatMatrix(assoc, f1, f2, alpha, exp), |assoc|)
    ensures ZeroDiagonal(CompatMatrix(assoc, f1, f2, alpha, exp), |assoc|)
  {
    var n, m := |assoc|, CompatMatrix(assoc, f1, f2, alpha, exp);
    forall r, c | 0 <= r < n && 0 <= c < n
      ensures IIDyn.Entry(m, n, r, c) == IIDyn.Entry(m, n, c, r)
    {
      Cell(n, n, r, c);
      Cell(n, n, c, r);
      CompatibilitySymmetric(assoc[r], assoc[c], f1, f2, alpha, exp);
    }
    forall r | 0 <= r < n
      ensures (Cell(n, n, r, r); m[r * n + r] == 0.0)
    {
      Cell(n, n, r, r);
    }
  }

  /** Cell `(r, c)` after the fill loops have handled every pair `(lo, hi)`
      with `lo < hi` that comes before `(i, j)`. */
  function Filled(assoc: seq<Association>, f1: seq<Feature>, f2: seq<Feature>, alpha: real,
                  exp: real -> real, r: nat, c: nat, i: nat, j: nat): real
    requires AllIndexes(assoc, f1, f2)
  {
    var lo, hi := if r <= c then r else c, if r <= c then c else r;
    if hi < |assoc| && lo != hi && (lo < i || (lo == i && hi < j))
    then Compatibility(assoc[lo], assoc[hi], f1, f2, alpha, exp)
    else 0.0
  }

  /** Handling pair `(i, j)` sets cells `(i, j)` and `(j, i)` and no other. */
  lemma FilledStep(assoc: seq<Association>, f1: seq<Feature>, f2: seq<Feature>, alpha: real,
                   exp: real -> real, r: nat, c: nat, i: nat, j: nat)
    requires AllIndexes(assoc, f1, f2) && r < |assoc| && c < |assoc| && i < j < |assoc|
    ensures Filled(assoc, f1, f2, alpha, exp, r, c, i, j + 1)
            == if (r == i && c == j) || (r == j && c == i) then Compatibility(assoc[i], assoc[j], f1, f2, alpha, exp)
               else Filled(assoc, f1, f2, alpha, exp, r, c, i, j)
  {
  }

  /** Every flat index decodes into a row and a column. */
  lemma AllCells(n: nat)
    ensures forall p :: 0 <= p < n * n ==> RowOf(p, n) < n && ColOf(p, n) < n && RowOf(p, n) * n + ColOf(p, n) == p
  {
    forall p | 0 <= p < n * n
      ensures RowOf(p, n) < n && ColOf(p, n) < n && RowOf(p, n) * n + ColOf(p, n) == p
    {
      RowCol(n, n, p);
    }
  }

  /** The whole matrix while the fill loops are at pair `(i, j)`. */
  function FilledMatrix(assoc: seq<Association>, f1: seq<Feature>, f2: seq<Feature>, alpha: real,
                        exp: real -> real, i: nat, j: nat): (m: seq<real>)
    requires AllIndexes(assoc, f1, f2)
    ensures |m| == |assoc| * |assoc|
  {
    var n := |assoc|;
    seq(n * n, p requires 0 <= p < n * n => Filled(assoc, f1, f2, alpha, exp, RowOf(p, n), ColOf(p, n), i, j))
  }

  lemma FillStart(assoc: seq<Association>, f1: seq<Feature>, f2: seq<Feature>, alpha: real, exp: real -> real)
    requires AllIndexes(assoc, f1, f2)
    ensures FilledMatrix(assoc, f1, f2, alpha, exp, 0, 1) == seq(|assoc| * |assoc|, _ => 0.0)
  {
    AllCells(|assoc|);
  }

  lemma FillCell(assoc: seq<Association>, f1: seq<Feature>, f2: seq<Feature>, alpha: real, exp: real -> real,
                 i: nat, j: nat, p: nat)
    requires AllIndexes(assoc, f1, f2) && i < j < |assoc| && p < |assoc| * |assoc|
    ensures FilledMatrix(assoc, f1, f2, alpha, exp, i, j + 1)[p]
            == if p == i * |assoc| + j || p == j * |assoc| + i then Compatibility(assoc[i], assoc[j], f1, f2, alpha, exp)
               else FilledMatrix(assoc, f1, f2, alpha, exp, i, j)[p]
  {
    var n := |assoc|;
    RowCol(n, n, p);
    Cell(n, n, i, j);
    Cell(n, n, j, i);
    FilledStep(assoc, f1, f2, alpha, exp, RowOf(p, n), ColOf(p, n), i, j);
  }

  lemma FillPair(assoc: seq<Association>, f1: seq<Feature>, f2: seq<Feature>, alpha: real, exp: real -> real,
                 i: nat, j: nat)
    requires AllIndexes(assoc, f1, f2) && i < j < |assoc|
    ensures i * |assoc| + j < |assoc| * |assoc| && j * |assoc| + i < |assoc| * |assoc|
    ensures FilledMatrix(assoc, f1, f2, alpha, exp, i, j)
              [i * |assoc| + j := Compatibility(assoc[i], assoc[j], f1, f2, alpha, exp)]
              [j * |assoc| + i := Compatibility(assoc[i], assoc[j], f1, f2, alpha, exp)]
            == FilledMatrix(assoc, f1, f2, alpha, exp, i, j + 1)
  {
    var n := |assoc|;
    Cell(n, n, i, j);
    Cell(n, n, j, i);
    forall p | 0 <= p < n * n {
      FillCell(assoc, f1, f2, alpha, exp, i, j, p);
    }
  }

  lemma FillNextRow(assoc: seq<Association>, f1: seq<Feature>, f2: seq<Feature>, alpha: real, exp: real -> real, i: nat)
    requires AllIndexes(assoc, f1, f2) && i + 1 < |assoc|
    ensures FilledMatrix(assoc, f1, f2, alpha, exp, i, |assoc|) == FilledMatrix(assoc, f1, f2, alpha, exp, i + 1, i + 2)
  {
    AllCells(|assoc|);
  }

  lemma FillDone(assoc: seq<Association>, f1: seq<Feature>, f2: seq<Feature>, alpha: real, exp: real -> real)
    requires AllIndexes(assoc, f1, f2) && |assoc| > 0
    ensures FilledMatrix(assoc, f1, f2, alpha, exp, |assoc| - 1, |assoc|) == CompatMatrix(assoc, f1, f2, alpha, exp)
  {
    var n := |assoc|;
    AllCells(n);
    forall p | 0 <= p < n * n
      ensures FilledMatrix(assoc, f1, f2, alpha, exp, n - 1, n)[p] == CompatMatrix(assoc, f1, f2, alpha, exp)[p]
    {
      CompatibilitySymmetric(assoc[RowOf(p, n)], assoc[ColOf(p, n)], f1, f2, alpha, exp);
    }
  }

  /** The inner fill loop of `kmatcher2`: row `i` of the upper triangle,
      each cell mirrored into the lower triangle. */
  method FillRow(m: array<real>, assoc: seq<Association>, f1: seq<Feature>, f2: seq<Feature>,
                 alpha: real, exp: real -> real, i: nat)
    requires AllIndexes(assoc, f1, f2) && i + 1 < |assoc| && m.Length == |assoc| * |assoc|
    requires m[..] == FilledMatrix(assoc, f1, f2, alpha, exp, i, i + 1)
    modifies m
    ensures m[..] == FilledMatrix(assoc, f1, f2, alpha, exp, i, |assoc|)
  {
    var n := |assoc|;
    var j := i + 1;
    while j < n
      invariant i + 1 <= j <= n
      invariant m[..] == FilledMatrix(assoc, f1, f2, alpha, exp, i, j)
    {
      var x := Compatibility(assoc[i], assoc[j], f1, f2, alpha, exp);
      FillPair(assoc, f1, f2, alpha, exp, i, j);
      var upper, lower := i * n + j, j * n + i;
      ghost var before := m[..];
      m[upper] := x;
      m[lower] := m[upper];
      assert m[..] == before[upper := x][lower := x];
      j := j + 1;
    }
  }

  /** The fill loops of `kmatcher2`: a zeroed matrix whose upper triangle is
      computed pair by pair and mirrored into the lower triangle. */
  method FillCompatibility(assoc: seq<Association>, f1: seq<Feature>, f2: seq<Feature>,
                           alpha: real, exp: real -> real) returns (m: array<real>)
    requires |assoc| > 0 && AllIndexes(assoc, f1, f2)
    ensures fresh(m) && m[..] == CompatMatrix(assoc, f1, f2, alpha, exp)
  {
    var n := |assoc|;
    m := new real[n * n](_ => 0.0);
    FillStart(assoc, f1, f2, alpha, exp);
    var i := 0;
    while i < n - 1
      invariant 0 <= i <= n - 1
      invariant m[..] == FilledMatrix(assoc, f1, f2, alpha, exp, i, i + 1)
    {
      FillRow(m, assoc, f1, f2, alpha, exp, i);
      FillNextRow(assoc, f1, f2, alpha, exp, i);
      i := i + 1;
    }
    FillDone(assoc, f1, f2, alpha, exp);
  }

  // ---------------------------------------------------------------------
  // Initial population

  lemma {:induction false} SumConstant(n: nat, c: real)
    ensures IIDyn.Sum(seq(n, _ => c)) == n as real * c
  {
    if n > 0 {
      assert seq(n, _ => c)[..n - 1] == seq(n - 1, _ => c);
      SumConstant(n - 1, c);
    }
  }

  /** Three `rand()` results consumed by one perturbation step: the
      percentage and the two indices, before the `%`. */
  datatype Draw = Draw(percent: nat, first: nat, second: nat)

  /** One perturbation step: `percent % 5` percent of the share at
      `first % n` is added to it and taken from the share at `second % n`. */
  function Nudged(p: seq<real>, d: Draw): (q: seq<real>)
    requires |p| > 0
    ensures |q| == |p|
  {
    Transfer(p, d.first % |p|, d.second % |p|, Amount(p, d))
  }

  /** The share moved by a draw: `percent % 5` percent of entry `first`. */
  function Amount(p: seq<real>, d: Draw): real
    requires |p| > 0
  {
    Percent(p[d.first % |p|], (d.percent % DevStd) as real)
  }

  /** `pct` percent of `x`. */
  function Percent(x: real, pct: real): real
  {
    x * pct / 100.0
  }

  /** `tmp` added to entry `a`, then taken from entry `b`. */
  function Transfer(p: seq<real>, a: nat, b: nat, tmp: real): (q: seq<real>)
    requires a < |p| && b < |p|
    ensures |q| == |p|
  {
    var p1 := p[a := p[a] + tmp];
    p1[b := p1[b] - tmp]
  }

  lemma {:induction false} TransferSum(p: seq<real>, a: nat, b: nat, tmp: real)
    requires a < |p| && b < |p|
    ensures IIDyn.Sum(Transfer(p, a, b, tmp)) == IIDyn.Sum(p)
  {
    IIDyn.SumUpdate(p, a, p[a] + tmp);
    var p1 := p[a := p[a] + tmp];
    IIDyn.SumUpdate(p1, b, p1[b] - tmp);
  }

  /** The perturbation steps of `ds`, applied in order. */
  function NudgedAll(p: seq<real>, ds: seq<Draw>): (q: seq<real>)
    requires |p| > 0
    ensures |q| == |p|
    decreases |ds|
  {
    if |ds| == 0 then p else NudgedAll(Nudged(p, ds[0]), ds[1..])
  }

  /** The uniform population `1/n` perturbed by the draws. */
  function PerturbOf(n: nat, draws: seq<Draw>): (p: seq<real>)
    requires n > 0
    ensures |p| == n
  {
    NudgedAll(Uniform(n), draws)
  }

  /** Every one of the `n` strategies played with share `1/n`. */
  function Uniform(n: nat): (p: seq<real>)
    requires n > 0
    ensures |p| == n
  {
    seq(n, _ => 1.0 / n as real)
  }

  /** Applying a non-empty list of draws: the first one, then the rest. */
  lemma NudgedAllStep(p: seq<real>, ds: seq<Draw>, i: nat)
    requires |p| > 0 && i < |ds|
    ensures NudgedAll(p, ds[i..]) == NudgedAll(Nudged(p, ds[i]), ds[i + 1..])
  {
    assert ds[i..][1..] == ds[i + 1..];
  }

  /** A perturbation step moves mass between two entries: the total is kept. */
  lemma {:induction false} NudgedSum(p: seq<real>, d: Draw)
    requires |p| > 0
    ensures IIDyn.Sum(Nudged(p, d)) == IIDyn.Sum(p)
  {
    TransferSum(p, d.first % |p|, d.second % |p|, Amount(p, d));
  }

  lemma {:induction false} NudgedAllSum(p: seq<real>, ds: seq<Draw>)
    requires |p| > 0
    ensures IIDyn.Sum(NudgedAll(p, ds)) == IIDyn.Sum(p)
    decreases |ds|
  {
    if |ds| > 0 {
      NudgedSum(p, ds[0]);
      NudgedAllSum(Nudged(p, ds[0]), ds[1..]);
    }
  }

  /** The perturbed initial population sums to exactly 1. */
  lemma {:induction false} PerturbOfSum(n: nat, draws: seq<Draw>)
    requires n > 0
    ensures IIDyn.Sum(PerturbOf(n, draws)) == 1.0
  {
    SumConstant(n, 1.0 / n as real);
    IIDyn.MulInverse(n as real);
    assert IIDyn.Sum(Uniform(n)) == 1.0;
    NudgedAllSum(Uniform(n), draws);
  }

  /** The uniform population `1/n`, perturbed `n` times by moving
      `perturbed[first] * (percent % 5) / 100` from entry `second` to
      entry `first`: the total stays exactly 1. */
  method Perturb(n: nat, draws: seq<Draw>) returns (p: seq<real>)
    requires n > 0 && |draws| == n
    ensures p == PerturbOf(n, draws)
    ensures |p| == n && IIDyn.Sum(p) == 1.0
  {
    p := Uniform(n);
    assert draws[0..] == draws;
    var i := 0;
    while i < n
      invariant 0 <= i <= n && |p| == n
      invariant NudgedAll(p, draws[i..]) == PerturbOf(n, draws)
    {
      ghost var p0 := p;
      NudgedAllStep(p, draws, i);
      var tmp := (draws[i].percent % DevStd) as real;
      var ind := draws[i].first % n;
      tmp := Percent(p[ind], tmp);
      ghost var first := ind;
      p := p[ind := p[ind] + tmp];
      ind := draws[i].second % n;
      p := p[ind := p[ind] - tmp];
      assert p == Transfer(p0, first, ind, tmp);
      i := i + 1;
    }
    assert draws[n..] == [];
    PerturbOfSum(n, draws);
  }

  // ---------------------------------------------------------------------
  // Selection of a round's strategies

  /** The value `std::max_element` points to. */
  function MaxOf(s: seq<real>): (m: real)
    requires |s| > 0
    ensures (exists i :: 0 <= i < |s| && s[i] == m) && forall i :: 0 <= i < |s| ==> s[i] <= m
  {
    if |s| == 1 then s[0]
    else
      var m := MaxOf(s[..|s| - 1]);
      assert forall i :: 0 <= i < |s| - 1 ==> s[..|s| - 1][i] == s[i];
      if s[|s| - 1] > m then s[|s| - 1] else m
  }

  predicate Increasing(t: seq<nat>)
  {
    forall a, b :: 0 <= a < b < |t| ==> t[a] < t[b]
  }

  /** The indices below `i` whose share exceeds `thresh`, in order. */
  function Above(pop: seq<real>, thresh: real, i: nat): (sel: seq<nat>)
    requires i <= |pop|
    ensures forall t :: 0 <= t < |sel| ==> sel[t] < i
  {
    if i == 0 then [] else Above(pop, thresh, i - 1) + (if pop[i - 1] > thresh then [i - 1] else [])
  }

  /** `Above` lists exactly the indices over the threshold, increasing. */
  lemma {:induction false} AboveExactly(pop: seq<real>, thresh: real, i: nat)
    requires i <= |pop|
    ensures Increasing(Above(pop, thresh, i))
    ensures forall j :: 0 <= j < |pop| ==> (j in Above(pop, thresh, i) <==> j < i && pop[j] > thresh)
  {
    if i > 0 {
      AboveExactly(pop, thresh, i - 1);
    }
  }

  /** The selection loop: the indices, in increasing order, whose share
      exceeds `thresh`. */
  method OverThreshold(pop: seq<real>, thresh: real) returns (good: seq<nat>)
    ensures good == Above(pop, thresh, |pop|)
    ensures forall t :: 0 <= t < |good| ==> good[t] < |pop|
  {
    good := [];
    var i := 0;
    while i < |pop|
      invariant 0 <= i <= |pop| && good == Above(pop, thresh, i)
    {
      if pop[i] > thresh {
        good := good + [i];
      }
      i := i + 1;
    }
  }

  /** The indices, in increasing order, whose population share exceeds
      the largest share times `quality`. */
  method GoodStrategies(pop: seq<real>, quality: real) returns (good: seq<nat>)
    requires |pop| > 0
    ensures good == Above(pop, MaxOf(pop) * quality, |pop|)
    ensures forall t :: 0 <= t < |good| ==> good[t] < |pop|
  {
    var thresh := MaxOf(pop) * quality;
    good := OverThreshold(pop, thresh);
    assert thresh == MaxOf(pop) * quality;
  }

  // ---------------------------------------------------------------------
  // Spatial masking

  /** A recorded match: the round that found it and the strategy index. */
  datatype Record = Record(group: nat, strategy: nat)

  /** `p` lies strictly inside the box of half-side `radius` around `c`. */
  predicate InBox(p: Feature, c: Feature, radius: real)
  {
    p.x < c.x + radius && p.x > c.x - radius && p.y < c.y + radius && p.y > c.y - radius
  }

  /** Strategy `i` has its source in the source box, or its target in the
      target box, of strategy `g`. */
  predicate Near(assoc: seq<Association>, f1: seq<Feature>, f2: seq<Feature>, radius: real, i: nat, g: nat)
    requires i < |assoc| && g < |assoc| && AllIndexes(assoc, f1, f2)
  {
    InBox(f1[assoc[i].source], f1[assoc[g].source], radius)
    || InBox(f2[assoc[i].target], f2[assoc[g].target], radius)
  }

  predicate Centres(assoc: seq<Association>, centres: seq<nat>)
  {
    forall z :: 0 <= z < |centres| ==> centres[z] < |assoc|
  }

  /** Strategy `i` is near one of the accepted strategies `centres`. */
  predicate Hit(assoc: seq<Association>, f1: seq<Feature>, f2: seq<Feature>, radius: real, i: nat, centres: seq<nat>)
    requires i < |assoc| && AllIndexes(assoc, f1, f2) && Centres(assoc, centres)
  {
    |centres| > 0
    && (Hit(assoc, f1, f2, radius, i, centres[..|centres| - 1])
        || Near(assoc, f1, f2, radius, i, centres[|centres| - 1]))
  }

  /** `Hit` read as an existential. */
  lemma {:induction false} HitSome(assoc: seq<Association>, f1: seq<Feature>, f2: seq<Feature>, radius: real,
                                   i: nat, centres: seq<nat>)
    requires i < |assoc| && AllIndexes(assoc, f1, f2) && Centres(assoc, centres)
    ensures Hit(assoc, f1, f2, radius, i, centres) <==>
              exists z :: 0 <= z < |centres| && Near(assoc, f1, f2, radius, i, centres[z])
  {
    if |centres| > 0 {
      var c := centres[..|centres| - 1];
      HitSome(assoc, f1, f2, radius, i, c);
      assert forall z :: 0 <= z < |c| ==> c[z] == centres[z];
      if Near(assoc, f1, f2, radius, i, centres[|centres| - 1]) {
        assert Hit(assoc, f1, f2, radius, i, centres);
      }
    }
  }

  function Hits(assoc: seq<Association>, f1: seq<Feature>, f2: seq<Feature>, radius: real,
                centres: seq<nat>): (h: seq<bool>)
    requires AllIndexes(assoc, f1, f2) && Centres(assoc, centres)
    ensures |h| == |assoc|
  {
    seq(|assoc|, i requires 0 <= i < |assoc| => Hit(assoc, f1, f2, radius, i, centres))
  }

  /** The active flags left after deactivating every strategy in `hit`. */
  function Survive(active: seq<bool>, hit: seq<bool>): (a: seq<bool>)
    requires |active| == |hit|
    ensures |a| == |active| && forall i :: 0 <= i < |a| ==> (a[i] ==> active[i])
  {
    seq(|active|, i requires 0 <= i < |active| => active[i] && !hit[i])
  }

  /** The strategies that `hit` deactivates now. */
  function Kill(active: seq<bool>, hit: seq<bool>): (d: seq<bool>)
    requires |active| == |hit|
    ensures |d| == |active|
  {
    seq(|active|, i requires 0 <= i < |active| => active[i] && hit[i])
  }

  function Or(a: seq<bool>, b: seq<bool>): (c: seq<bool>)
    requires |a| == |b|
    ensures |c| == |a|
  {
    seq(|a|, i requires 0 <= i < |a| => a[i] || b[i])
  }

  /** The matrix with the full row and column of every `dead` strategy zeroed. */
  function Cleared(m: seq<real>, n: nat, dead: seq<bool>): (c: seq<real>)
    requires |m| == n * n && |dead| == n
    ensures |c| == n * n
  {
    seq(n * n, p requires 0 <= p < n * n =>
      RowCol(n, n, p);
      if dead[RowOf(p, n)] || dead[ColOf(p, n)] then 0.0 else m[p])
  }

  /** Every row and column of a `dead` strategy is zero. */
  predicate ZeroCrosses(m: seq<real>, n: nat, dead: seq<bool>)
    requires |m| == n * n && |dead| == n
  {
    forall p :: 0 <= p < n * n ==> (RowCol(n, n, p); dead[RowOf(p, n)] || dead[ColOf(p, n)] ==> m[p] == 0.0)
  }

  /** Clearing keeps the matrix symmetric and zeroes the crosses it names. */
  lemma ClearedSymmetric(m: seq<real>, n: nat, dead: seq<bool>)
    requires |m| == n * n && |dead| == n && IIDyn.Symmetric(m, n)
    ensures IIDyn.Symmetric(Cleared(m, n, dead), n)
    ensures ZeroCrosses(Cleared(m, n, dead), n, dead)
  {
    var c := Cleared(m, n, dead);
    forall r, q | 0 <= r < n && 0 <= q < n
      ensures IIDyn.Entry(c, n, r, q) == IIDyn.Entry(c, n, q, r)
    {
      Cell(n, n, r, q);
      Cell(n, n, q, r);
      ClearedAt(m, n, dead, r, q);
      ClearedAt(m, n, dead, q, r);
      assert IIDyn.Entry(m, n, r, q) == IIDyn.Entry(m, n, q, r);
    }

  }

  lemma ClearedAt(m: seq<real>, n: nat, dead: seq<bool>, r: nat, c: nat)
    requires |m| == n * n && |dead| == n && r < n && c < n
    ensures (Cell(n, n, r, c);
             Cleared(m, n, dead)[r * n + c] == if dead[r] || dead[c] then 0.0 else m[r * n + c])
  {
    Cell(n, n, r, c);
  }

  /** Clearing twice clears the union. */
  lemma ClearedTwice(m: seq<real>, n: nat, d1: seq<bool>, d2: seq<bool>)
    requires |m| == n * n && |d1| == n && |d2| == n
    ensures Cleared(Cleared(m, n, d1), n, d2) == Cleared(m, n, Or(d1, d2))
  {
    forall p | 0 <= p < n * n
      ensures Cleared(Cleared(m, n, d1), n, d2)[p] == Cleared(m, n, Or(d1, d2))[p]
    {
      RowCol(n, n, p);
    }
  }

  /** Zeroes row `i` and column `i`. */
  method ZeroCross(m: array<real>, n: nat, i: nat)
    requires m.Length == n * n && i < n
    modifies m
    ensures forall p :: 0 <= p < n * n ==> m[p] == if RowOf(p, n) == i || ColOf(p, n) == i then 0.0 else old(m[p])
  {
    forall p | 0 <= p < n * n
      ensures RowOf(p, n) * n + ColOf(p, n) == p && RowOf(p, n) < n && ColOf(p, n) < n
    {
      RowCol(n, n, p);
    }
    var j := 0;
    while j < n
      invariant 0 <= j <= n
      invariant forall p :: 0 <= p < n * n ==>
                  m[p] == if (RowOf(p, n) == i && ColOf(p, n) < j) || (ColOf(p, n) == i && RowOf(p, n) < j)
                          then 0.0 else old(m[p])
    {
      Cell(n, n, i, j);
      Cell(n, n, j, i);
      m[i * n + j] := 0.0;
      m[j * n + i] := 0.0;
      j := j + 1;
    }
  }

  function Upto(h: seq<bool>, i: nat): (u: seq<bool>)
    ensures |u| == |h|
  {
    seq(|h|, t requires 0 <= t < |h| => t < i && h[t])
  }

  /** Zeroing the cross of `i` is clearing with `i` the only dead strategy. */
  lemma CrossCleared(before: seq<real>, after: seq<real>, n: nat, i: nat)
    requires |before| == |after| == n * n && i < n
    requires forall p :: 0 <= p < n * n ==> after[p] == if RowOf(p, n) == i || ColOf(p, n) == i then 0.0 else before[p]
    ensures after == Cleared(before, n, seq(n, t requires 0 <= t < n => t == i))
  {
    forall p | 0 <= p < n * n
      ensures after[p] == Cleared(before, n, seq(n, t requires 0 <= t < n => t == i))[p]
    {
      RowCol(n, n, p);
    }
  }

  /** One step of the box loop at strategy `i`, from the state after the
      strategies before `i` to the state after `i`. */
  lemma ClearStep(m0: seq<real>, a0: seq<bool>, inside: seq<bool>, n: nat, i: nat,
                  mb: seq<real>, ab: seq<bool>, ma: seq<real>, aa: seq<bool>)
    requires |m0| == |mb| == |ma| == n * n && |a0| == |inside| == n && i < n
    requires ab == Survive(a0, Upto(inside, i)) && mb == Cleared(m0, n, Kill(a0, Upto(inside, i)))
    requires ab[i] && inside[i] ==>
               aa == ab[i := false]
               && forall p :: 0 <= p < n * n ==> ma[p] == if RowOf(p, n) == i || ColOf(p, n) == i then 0.0 else mb[p]
    requires !(ab[i] && inside[i]) ==> aa == ab && ma == mb
    ensures aa == Survive(a0, Upto(inside, i + 1)) && ma == Cleared(m0, n, Kill(a0, Upto(inside, i + 1)))
  {
    if ab[i] && inside[i] {
      var one := seq(n, t requires 0 <= t < n => t == i);
      assert Kill(a0, Upto(inside, i + 1)) == Or(Kill(a0, Upto(inside, i)), one);
      ClearedTwice(m0, n, Kill(a0, Upto(inside, i)), one);
      CrossCleared(mb, ma, n, i);
    } else {
      assert Kill(a0, Upto(inside, i + 1)) == Kill(a0, Upto(inside, i));
    }
  }

  lemma ClearStart(m0: seq<real>, a0: seq<bool>, inside: seq<bool>, n: nat)
    requires |m0| == n * n && |a0| == |inside| == n
    ensures a0 == Survive(a0, Upto(inside, 0)) && m0 == Cleared(m0, n, Kill(a0, Upto(inside, 0)))
  {
    assert Kill(a0, Upto(inside, 0)) == seq(n, _ => false);
    AllCells(n);
  }

  lemma UptoAll(h: seq<bool>)
    ensures Upto(h, |h|) == h
  {
  }

  /** One box loop: every still active strategy marked `inside` is
      deactivated and its row and column zeroed. */
  method ClearBox(m: array<real>, active: array<bool>, n: nat, inside: seq<bool>)
    requires m.Length == n * n && active.Length == n && |inside| == n
    modifies m, active
    ensures active[..] == Survive(old(active[..]), inside)
    ensures m[..] == Cleared(old(m[..]), n, Kill(old(active[..]), inside))
  {
    ghost var a0, m0 := active[..], m[..];
    ClearStart(m0, a0, inside, n);
    var i := 0;
    while i < n
      invariant 0 <= i <= n
      invariant active[..] == Survive(a0, Upto(inside, i))
      invariant m[..] == Cleared(m0, n, Kill(a0, Upto(inside, i)))
    {
      ghost var mb, ab := m[..], active[..];
      if active[i] && inside[i] {
        ZeroCross(m, n, i);
        active[i] := false;
      }
      ClearStep(m0, a0, inside, n, i, mb, ab, m[..], active[..]);
      i := i + 1;
    }
    UptoAll(inside);
  }

  /** The strategies whose source lies in the source box of strategy `g`. */
  function SourceBox(assoc: seq<Association>, f1: seq<Feature>, f2: seq<Feature>, radius: real, g: nat): (h: seq<bool>)
    requires g < |assoc| && AllIndexes(assoc, f1, f2)
    ensures |h| == |assoc|
  {
    seq(|assoc|, i requires 0 <= i < |assoc| => InBox(f1[assoc[i].source], f1[assoc[g].source], radius))
  }

  /** The strategies whose target lies in the target box of strategy `g`. */
  function TargetBox(assoc: seq<Association>, f1: seq<Feature>, f2: seq<Feature>, radius: real, g: nat): (h: seq<bool>)
    requires g < |assoc| && AllIndexes(assoc, f1, f2)
    ensures |h| == |assoc|
  {
    seq(|assoc|, i requires 0 <= i < |assoc| => InBox(f2[assoc[i].target], f2[assoc[g].target], radius))
  }

  lemma HitsExtend(assoc: seq<Association>, f1: seq<Feature>, f2: seq<Feature>, radius: real,
                   centres: seq<nat>, g: nat)
    requires AllIndexes(assoc, f1, f2) && Centres(assoc, centres) && g < |assoc|
    ensures Centres(assoc, centres + [g])
    ensures Hits(assoc, f1, f2, radius, centres + [g])
            == Or(Or(Hits(assoc, f1, f2, radius, centres), SourceBox(assoc, f1, f2, radius, g)),
                  TargetBox(assoc, f1, f2, radius, g))
  {
    assert (centres + [g])[..|centres|] == centres;
  }

  /** Two box loops in a row deactivate and clear what one loop over both
      boxes would. */
  lemma TwoBoxes(m: seq<real>, n: nat, a: seq<bool>, h: seq<bool>, s: seq<bool>, t: seq<bool>)
    requires |m| == n * n && |a| == n && |h| == n && |s| == n && |t| == n
    ensures Survive(Survive(Survive(a, h), s), t) == Survive(a, Or(Or(h, s), t))
    ensures Cleared(Cleared(Cleared(m, n, Kill(a, h)), n, Kill(Survive(a, h), s)), n, Kill(Survive(Survive(a, h), s), t))
            == Cleared(m, n, Kill(a, Or(Or(h, s), t)))
  {
    ClearedTwice(m, n, Kill(a, h), Kill(Survive(a, h), s));
    ClearedTwice(m, n, Or(Kill(a, h), Kill(Survive(a, h), s)), Kill(Survive(Survive(a, h), s), t));
    assert Or(Or(Kill(a, h), Kill(Survive(a, h), s)), Kill(Survive(Survive(a, h), s), t))
           == Kill(a, Or(Or(h, s), t));
  }

  function Strategies(rs: seq<Record>): (t: seq<nat>)
    ensures |t| == |rs|
  {
    seq(|rs|, z requires 0 <= z < |rs| => rs[z].strategy)
  }

  /** `deleteFeatureFromMatch`: for every record from `start` on, every
      still active strategy whose source lies in that record's source box,
      then every one whose target lies in its target box, is deactivated
      and gets its row and column of the compatibility matrix zeroed. */
  method DeleteFeatureFromMatch(m: array<real>, f1: seq<Feature>, f2: seq<Feature>, assoc: seq<Association>,
                                good: seq<Record>, start: nat, active: array<bool>, radius: real)
    requires m.Length == |assoc| * |assoc| && active.Length == |assoc| && AllIndexes(assoc, f1, f2)
    requires start <= |good| && Centres(assoc, Strategies(good[start..]))
    modifies m, active
    ensures active[..] == Survive(old(active[..]), Hits(assoc, f1, f2, radius, Strategies(good[start..])))
    ensures m[..] == Cleared(old(m[..]), |assoc|, Kill(old(active[..]), Hits(assoc, f1, f2, radius, Strategies(good[start..]))))
  {
    var n := |assoc|;
    ghost var a0, m0 := active[..], m[..];
    assert Survive(a0, Hits(assoc, f1, f2, radius, [])) == a0;
    assert Kill(a0, Hits(assoc, f1, f2, radius, [])) == seq(n, _ => false);
    assert m[..] == Cleared(m0, n, seq(n, _ => false));
    var z := start;
    while z < |good|
      invariant start <= z <= |good|
      invariant Centres(assoc, Strategies(good[start..z]))
      invariant active[..] == Survive(a0, Hits(assoc, f1, f2, radius, Strategies(good[start..z])))
      invariant m[..] == Cleared(m0, n, Kill(a0, Hits(assoc, f1, f2, radius, Strategies(good[start..z]))))
    {
      var g := good[z].strategy;
      assert g == Strategies(good[start..])[z - start];
      ghost var h := Hits(assoc, f1, f2, radius, Strategies(good[start..z]));
      ClearBox(m, active, n, SourceBox(assoc, f1, f2, radius, g));
      ClearBox(m, active, n, TargetBox(assoc, f1, f2, radius, g));
      TwoBoxes(m0, n, a0, h, SourceBox(assoc, f1, f2, radius, g), TargetBox(assoc, f1, f2, radius, g));
      assert Strategies(good[start..z + 1]) == Strategies(good[start..z]) + [g];
      HitsExtend(assoc, f1, f2, radius, Strategies(good[start..z]), g);
      z := z + 1;
    }
    assert good[start..z] == good[start..];
  }

  function Not(a: seq<bool>): (b: seq<bool>)
    ensures |b| == |a|
  {
    seq(|a|, i requires 0 <= i < |a| => !a[i])
  }

  /** A masking step keeps the matrix symmetric and keeps the row and
      column of every inactive strategy zero. */
  lemma MaskedStep(m: seq<real>, n: nat, active: seq<bool>, hit: seq<bool>)
    requires |m| == n * n && |active| == n && |hit| == n
    requires IIDyn.Symmetric(m, n) && ZeroCrosses(m, n, Not(active))
    ensures IIDyn.Symmetric(Cleared(m, n, Kill(active, hit)), n)
    ensures ZeroCrosses(Cleared(m, n, Kill(active, hit)), n, Not(Survive(active, hit)))
  {
    ClearedSymmetric(m, n, Kill(active, hit));
    var c := Cleared(m, n, Kill(active, hit));
    forall p | 0 <= p < n * n
      ensures (RowCol(n, n, p); Not(Survive(active, hit))[RowOf(p, n)] || Not(Survive(active, hit))[ColOf(p, n)] ==> c[p] == 0.0)
    {
      RowCol(n, n, p);
    }
  }

  // ---------------------------------------------------------------------
  // Records and output

  /** The records of round `r`: one per selected strategy. */
  function RoundRecords(r: nat, sel: seq<nat>): (rs: seq<Record>)
    ensures |rs| == |sel| && Strategies(rs) == sel
  {
    seq(|sel|, t requires 0 <= t < |sel| => Record(r, sel[t]))
  }

  /** The records that survive the rounds `rounds`: a round's records are
      erased when it selected fewer than `minGood` strategies. */
  function Kept(rounds: seq<seq<nat>>, minGood: nat): seq<Record>
  {
    if |rounds| == 0 then []
    else
      var last := rounds[|rounds| - 1];
      Kept(rounds[..|rounds| - 1], minGood) + (if |last| >= minGood then RoundRecords(|rounds| - 1, last) else [])
  }

  /** The number of rounds that selected at least `minGood` strategies. */
  function Accepted(rounds: seq<seq<nat>>, minGood: nat): nat
  {
    if |rounds| == 0 then 0
    else Accepted(rounds[..|rounds| - 1], minGood) + (if |rounds[|rounds| - 1]| >= minGood then 1 else 0)
  }

  /** A kept record is a strategy of a round with enough strategies, and
      every strategy of such a round is kept; records come round by round. */
  lemma {:induction false} KeptExactly(rounds: seq<seq<nat>>, minGood: nat)
    ensures Accepted(rounds, minGood) <= |rounds|
    ensures forall g: nat, t: nat :: Record(g, t) in Kept(rounds, minGood) <==> g < |rounds| && |rounds[g]| >= minGood && t in rounds[g]
    ensures forall a, b :: 0 <= a < b < |Kept(rounds, minGood)| ==> Kept(rounds, minGood)[a].group <= Kept(rounds, minGood)[b].group
  {
    if |rounds| > 0 {
      var init, last := rounds[..|rounds| - 1], rounds[|rounds| - 1];
      KeptExactly(init, minGood);
      var tail := if |last| >= minGood then RoundRecords(|rounds| - 1, last) else [];
      assert Kept(rounds, minGood) == Kept(init, minGood) + tail;
      forall g: nat, t: nat
        ensures Record(g, t) in Kept(rounds, minGood) <==> g < |rounds| && |rounds[g]| >= minGood && t in rounds[g]
      {
        if g < |rounds| - 1 {
          assert rounds[g] == init[g];
        }
        if g == |rounds| - 1 && |last| >= minGood && t in last {
          var j :| 0 <= j < |last| && last[j] == t;
          assert tail[j] == Record(g, t);
        }
      }
    }
  }

  /** The matches of a pair as `matchinit` receives them: nothing below
      the minimum, otherwise the image pair, the count and one line of
      keypoint indices per record. */
  function MatchLines(imgFrom: int, imgTo: int, good: seq<Record>, assoc: seq<Association>,
                      f1: seq<Feature>, f2: seq<Feature>): (lines: seq<seq<int>>)
    requires AllIndexes(assoc, f1, f2) && Centres(assoc, Strategies(good))
    ensures |good| < MinWrittenMatches <==> lines == []
    ensures |good| >= MinWrittenMatches ==>
              |lines| == |good| + 2 && lines[0] == [imgFrom, imgTo] && lines[1] == [|good|]
              && forall z :: 0 <= z < |good| ==>
                   lines[z + 2] == [f1[assoc[Strategies(good)[z]].source].index, f2[assoc[Strategies(good)[z]].target].index]
  {
    if |good| < MinWrittenMatches then []
    else
      [[imgFrom, imgTo], [|good|]]
      + seq(|good|, z requires 0 <= z < |good| =>
          [f1[assoc[Strategies(good)[z]].source].index, f2[assoc[Strategies(good)[z]].target].index])
  }

  /** The `.grp` file: the same lines, each match line followed by the
      round that found it. */
  function GroupLines(imgFrom: int, imgTo: int, good: seq<Record>, assoc: seq<Association>,
                      f1: seq<Feature>, f2: seq<Feature>): (lines: seq<seq<int>>)
    requires AllIndexes(assoc, f1, f2) && Centres(assoc, Strategies(good))
    ensures |lines| == |MatchLines(imgFrom, imgTo, good, assoc, f1, f2)|
    ensures forall l :: 0 <= l < |lines| && l < 2 ==> lines[l] == MatchLines(imgFrom, imgTo, good, assoc, f1, f2)[l]
    ensures forall z :: 0 <= z < |good| && z + 2 < |lines| ==>
              lines[z + 2] == MatchLines(imgFrom, imgTo, good, assoc, f1, f2)[z + 2] + [good[z].group]
  {
    if |good| < MinWrittenMatches then []
    else
      [[imgFrom, imgTo], [|good|]]
      + seq(|good|, z requires 0 <= z < |good| =>
          [f1[assoc[Strategies(good)[z]].source].index, f2[assoc[Strategies(good)[z]].target].index, good[z].group])
  }

  // ---------------------------------------------------------------------
  // The round loop

  /** What one run of the round loop went through.  Entry `r` of `pops`,
      `stops` and `avgs` belongs to round `r`; entry `r` of `actives` and
      `mats` is the state round `r` started from, and the last entry the
      state the loop ended in; `rounds` holds the selection of every round
      that did not stop the loop. */
  datatype Trace = Trace(assoc: seq<Association>, nbrs: seq<seq<nat>>, perturbed: seq<real>,
                         pops: seq<seq<real>>, stops: seq<IIDyn.Stop>, avgs: seq<real>,
                         rounds: seq<seq<nat>>, actives: seq<seq<bool>>, mats: seq<seq<real>>)

  ghost predicate Shaped(t: Trace, n: nat)
  {
    |t.assoc| == n && |t.perturbed| == n && |t.pops| == |t.stops| == |t.avgs| && |t.mats| == |t.actives| == |t.avgs| + 1
    && |t.rounds| <= |t.avgs| <= |t.rounds| + 1
    && (forall r :: 0 <= r < |t.pops| ==> |t.pops[r]| == n)
    && (forall r :: 0 <= r < |t.mats| ==> |t.mats[r]| == n * n)
    && (forall r :: 0 <= r < |t.actives| ==> |t.actives[r]| == n)
    && (forall r :: 0 <= r < |t.rounds| ==> Centres(t.assoc, t.rounds[r]))
  }

  /** One round: the dynamics ran on matrix `mat` from the population
      `start` and reached `pop`; its average payoff either stopped the loop
      (`sel` is `None`), or the strategies `sel` over the quality threshold
      were selected and, unless `last`, masked.  `act'` and `mat'` are the
      active flags and the matrix the round leaves. */
  ghost predicate Step(assoc: seq<Association>, f1: seq<Feature>, f2: seq<Feature>, ps: Params, n: nat, last: bool,
                       start: seq<real>, pop: seq<real>, stop: IIDyn.Stop, avg: real, sel: Option<seq<nat>>,
                       act: seq<bool>, mat: seq<real>, act': seq<bool>, mat': seq<real>)
    requires |assoc| == n && AllIndexes(assoc, f1, f2) && |start| == n && |pop| == n && |mat| == n * n && |act| == n
    requires sel.Some? ==> Centres(assoc, sel.value)
  {
    pop == IIDyn.IidynOf(mat, n, start, TerminationThreshold, IidynMaxIterations).x
    && stop == IIDyn.IidynOf(mat, n, start, TerminationThreshold, IidynMaxIterations).stop
    && (stop != IIDyn.NonFinite && n > 0 ==> IIDyn.IsSimplex(pop))
    && avg == IIDyn.InnerProduct(IIDyn.MatVec(mat, pop, n), pop)
    && match sel
       case Some(good) =>
         avg >= ps.averagePayoffThreshold && n > 0
         && good == Above(pop, MaxOf(pop) * ps.qualityThreshold, n)
         && if !last then
              var hit := Hits(assoc, f1, f2, ps.radius, good);
              act' == Survive(act, hit) && mat' == Cleared(mat, n, Kill(act, hit))
            else act' == act && mat' == mat
       case None => avg < ps.averagePayoffThreshold && act' == act && mat' == mat
  }

  ghost predicate RoundOf(t: Trace, f1: seq<Feature>, f2: seq<Feature>, ps: Params, n: nat, r: nat)
    requires Shaped(t, n) && AllIndexes(t.assoc, f1, f2) && r < |t.avgs|
  {
    Step(t.assoc, f1, f2, ps, n, r + 1 == ps.maxIterations, t.perturbed, t.pops[r], t.stops[r], t.avgs[r],
         if r < |t.rounds| then Some(t.rounds[r]) else None,
         t.actives[r], t.mats[r], t.actives[r + 1], t.mats[r + 1])
  }

  /** Every round of `t` so far, from the full compatibility matrix with
      every strategy active. */
  ghost predicate Played(t: Trace, f1: seq<Feature>, f2: seq<Feature>, ps: Params, fs: Maths, n: nat)
  {
    Shaped(t, n) && AllIndexes(t.assoc, f1, f2)
    && t.mats[0] == CompatMatrix(t.assoc, f1, f2, ps.payoffAlpha, fs.exp)
    && t.actives[0] == seq(n, _ => true)
    && forall r :: 0 <= r < |t.avgs| ==> RoundOf(t, f1, f2, ps, n, r)
  }

  /** The loop ran out of iterations or was stopped by the payoff test. */
  ghost predicate Finished(t: Trace, ps: Params)
  {
    |t.avgs| <= ps.maxIterations && (|t.rounds| < |t.avgs| || |t.avgs| == ps.maxIterations)
  }

  /** Appending a round to a trace whose rounds all selected. */
  lemma PlayedExtend(t: Trace, u: Trace, f1: seq<Feature>, f2: seq<Feature>, ps: Params, fs: Maths, n: nat)
    requires Played(t, f1, f2, ps, fs, n) && |t.rounds| == |t.avgs|
    requires Shaped(u, n) && u.assoc == t.assoc && u.perturbed == t.perturbed && |u.avgs| == |t.avgs| + 1
    requires u.pops[..|t.pops|] == t.pops && u.stops[..|t.stops|] == t.stops && u.avgs[..|t.avgs|] == t.avgs
    requires u.rounds[..|t.rounds|] == t.rounds && u.actives[..|t.actives|] == t.actives && u.mats[..|t.mats|] == t.mats
    requires RoundOf(u, f1, f2, ps, n, |t.avgs|)
    ensures Played(u, f1, f2, ps, fs, n)
  {
    assert AllIndexes(u.assoc, f1, f2);
    forall r | 0 <= r < |u.avgs|
      ensures RoundOf(u, f1, f2, ps, n, r)
    {
      if r < |t.avgs| {
        RoundKept(t, u, f1, f2, ps, n, r);
      }
    }
    assert u.actives[0] == t.actives[0] && u.mats[0] == t.mats[0];
  }

  /** A round of a trace is a round of every trace that extends it. */
  lemma RoundKept(t: Trace, u: Trace, f1: seq<Feature>, f2: seq<Feature>, ps: Params, n: nat, r: nat)
    requires Shaped(t, n) && Shaped(u, n) && AllIndexes(t.assoc, f1, f2) && u.assoc == t.assoc && u.perturbed == t.perturbed
    requires r < |t.avgs| == |t.rounds| && |u.avgs| == |t.avgs| + 1
    requires u.pops[..|t.pops|] == t.pops && u.stops[..|t.stops|] == t.stops && u.avgs[..|t.avgs|] == t.avgs
    requires u.rounds[..|t.rounds|] == t.rounds && u.actives[..|t.actives|] == t.actives && u.mats[..|t.mats|] == t.mats
    requires RoundOf(t, f1, f2, ps, n, r)
    ensures RoundOf(u, f1, f2, ps, n, r)
  {
    assert u.pops[r] == t.pops[r] && u.stops[r] == t.stops[r] && u.avgs[r] == t.avgs[r] && u.rounds[r] == t.rounds[r];
    assert u.actives[r] == t.actives[r] && u.mats[r] == t.mats[r];
    assert u.actives[r + 1] == t.actives[r + 1] && u.mats[r + 1] == t.mats[r + 1];
  }

  /** A round keeps the matrix symmetric and the crosses of inactive
      strategies zero. */
  lemma StepMasked(assoc: seq<Association>, f1: seq<Feature>, f2: seq<Feature>, ps: Params, n: nat, last: bool,
                   start: seq<real>, pop: seq<real>, stop: IIDyn.Stop, avg: real, sel: Option<seq<nat>>,
                   act: seq<bool>, mat: seq<real>, act': seq<bool>, mat': seq<real>)
    requires |assoc| == n && AllIndexes(assoc, f1, f2) && |start| == n && |pop| == n && |mat| == n * n && |act| == n
    requires sel.Some? ==> Centres(assoc, sel.value)
    requires Step(assoc, f1, f2, ps, n, last, start, pop, stop, avg, sel, act, mat, act', mat')
    requires IIDyn.Symmetric(mat, n) && ZeroCrosses(mat, n, Not(act))
    ensures |mat'| == n * n && |act'| == n
    ensures IIDyn.Symmetric(mat', n) && ZeroCrosses(mat', n, Not(act'))
  {
    if sel.Some? && !last {
      MaskedStep(mat, n, act, Hits(assoc, f1, f2, ps.radius, sel.value));
    }
  }

  lemma NoneDead(m: seq<real>, n: nat, dead: seq<bool>)
    requires |m| == n * n && |dead| == n && forall i :: 0 <= i < n ==> !dead[i]
    ensures ZeroCrosses(m, n, dead)
  {
    forall p | 0 <= p < n * n
      ensures (RowCol(n, n, p); !dead[RowOf(p, n)] && !dead[ColOf(p, n)])
    {
      RowCol(n, n, p);
    }
  }

  lemma PlayedMaskedStep(t: Trace, f1: seq<Feature>, f2: seq<Feature>, ps: Params, fs: Maths, n: nat, q: nat)
    requires Played(t, f1, f2, ps, fs, n) && q + 1 < |t.mats|
    requires IIDyn.Symmetric(t.mats[q], n) && ZeroCrosses(t.mats[q], n, Not(t.actives[q]))
    ensures IIDyn.Symmetric(t.mats[q + 1], n) && ZeroCrosses(t.mats[q + 1], n, Not(t.actives[q + 1]))
  {
    assert RoundOf(t, f1, f2, ps, n, q);
    StepMasked(t.assoc, f1, f2, ps, n, q + 1 == ps.maxIterations, t.perturbed, t.pops[q], t.stops[q], t.avgs[q],
               if q < |t.rounds| then Some(t.rounds[q]) else None,
               t.actives[q], t.mats[q], t.actives[q + 1], t.mats[q + 1]);
  }

  /** Along a trace the matrix stays symmetric and the row and column of
      every inactive strategy stay zero. */
  lemma {:induction false} PlayedMasked(t: Trace, f1: seq<Feature>, f2: seq<Feature>, ps: Params, fs: Maths, n: nat, r: nat)
    requires Played(t, f1, f2, ps, fs, n) && r < |t.mats|
    ensures IIDyn.Symmetric(t.mats[r], n) && ZeroCrosses(t.mats[r], n, Not(t.actives[r]))
  {
    if r == 0 {
      CompatMatrixSymmetric(t.assoc, f1, f2, ps.payoffAlpha, fs.exp);
      NoneDead(t.mats[0], n, Not(t.actives[0]));
    } else {
      PlayedMasked(t, f1, f2, ps, fs, n, r - 1);
      PlayedMaskedStep(t, f1, f2, ps, fs, n, r - 1);
    }
  }

  /** Every round that converged reached a population whose Nash error
      against the round's (symmetric) matrix is below the squared
      termination threshold. */
  lemma PlayedConverged(t: Trace, f1: seq<Feature>, f2: seq<Feature>, ps: Params, fs: Maths, n: nat, r: nat)
    requires Played(t, f1, f2, ps, fs, n) && r < |t.pops| && t.stops[r] == IIDyn.Converged
    ensures IIDyn.NashGap(t.pops[r], IIDyn.MatVec(t.mats[r], t.pops[r], n),
                          IIDyn.InnerProduct(IIDyn.MatVec(t.mats[r], t.pops[r], n), t.pops[r]))
            < TerminationThreshold * TerminationThreshold
  {
    assert RoundOf(t, f1, f2, ps, n, r);
    PlayedMasked(t, f1, f2, ps, fs, n, r);
    DynamicsConverged(t.mats[r], n, t.perturbed, t.pops[r], t.stops[r]);
  }

  lemma DynamicsConverged(m: seq<real>, n: nat, start: seq<real>, pop: seq<real>, stop: IIDyn.Stop)
    requires |m| == n * n && |start| == n && IIDyn.Symmetric(m, n)
    requires pop == IIDyn.IidynOf(m, n, start, TerminationThreshold, IidynMaxIterations).x
    requires stop == IIDyn.IidynOf(m, n, start, TerminationThreshold, IidynMaxIterations).stop
    requires stop == IIDyn.Converged
    ensures IIDyn.NashGap(pop, IIDyn.MatVec(m, pop, n), IIDyn.InnerProduct(IIDyn.MatVec(m, pop, n), pop))
            < TerminationThreshold * TerminationThreshold
  {
    IIDyn.IidynOfSound(m, n, start, TerminationThreshold, IidynMaxIterations);
  }

  /** A strategy, once inactive, stays inactive. */
  lemma PlayedMonotone(t: Trace, f1: seq<Feature>, f2: seq<Feature>, ps: Params, fs: Maths, n: nat, r: nat, i: nat)
    requires Played(t, f1, f2, ps, fs, n) && r + 1 < |t.actives| && i < n
    ensures t.actives[r + 1][i] ==> t.actives[r][i]
  {
    assert RoundOf(t, f1, f2, ps, n, r);
  }

  function Append(t: Trace, pop: seq<real>, stop: IIDyn.Stop, avg: real, sel: Option<seq<nat>>,
                  act: seq<bool>, mat: seq<real>): Trace
  {
    t.(pops := t.pops + [pop], stops := t.stops + [stop], avgs := t.avgs + [avg],
       rounds := if sel.Some? then t.rounds + [sel.value] else t.rounds,
       actives := t.actives + [act], mats := t.mats + [mat])
  }

  lemma AppendShaped(t: Trace, n: nat, pop: seq<real>, stop: IIDyn.Stop, avg: real, sel: Option<seq<nat>>,
                     act: seq<bool>, mat: seq<real>)
    requires Shaped(t, n) && |t.rounds| == |t.avgs|
    requires |pop| == n && |act| == n && |mat| == n * n && (sel.Some? ==> Centres(t.assoc, sel.value))
    ensures var u := Append(t, pop, stop, avg, sel, act, mat);
            Shaped(u, n) && u.assoc == t.assoc && u.perturbed == t.perturbed && |u.avgs| == |t.avgs| + 1
            && u.pops[..|t.pops|] == t.pops && u.stops[..|t.stops|] == t.stops && u.avgs[..|t.avgs|] == t.avgs
            && u.rounds[..|t.rounds|] == t.rounds && u.actives[..|t.actives|] == t.actives && u.mats[..|t.mats|] == t.mats
  {
    var u := Append(t, pop, stop, avg, sel, act, mat);
    assert u.pops[..|t.pops|] == t.pops && u.stops[..|t.stops|] == t.stops && u.avgs[..|t.avgs|] == t.avgs;
    assert u.rounds[..|t.rounds|] == t.rounds && u.actives[..|t.actives|] == t.actives && u.mats[..|t.mats|] == t.mats;
    assert forall r :: 0 <= r < |u.pops| ==> u.pops[r] == if r < |t.pops| then t.pops[r] else pop;
    assert forall r :: 0 <= r < |u.mats| ==> u.mats[r] == if r < |t.mats| then t.mats[r] else mat;
    assert forall r :: 0 <= r < |u.actives| ==> u.actives[r] == if r < |t.actives| then t.actives[r] else act;
    assert forall r :: 0 <= r < |u.rounds| ==> u.rounds[r] == if r < |t.rounds| then t.rounds[r] else sel.value;
  }

  /** The appended round is the step it was built from. */
  lemma AppendRound(t: Trace, f1: seq<Feature>, f2: seq<Feature>, ps: Params, n: nat,
                    pop: seq<real>, stop: IIDyn.Stop, avg: real, sel: Option<seq<nat>>, act: seq<bool>, mat: seq<real>)
    requires Shaped(t, n) && AllIndexes(t.assoc, f1, f2) && |t.rounds| == |t.avgs|
    requires |pop| == n && |act| == n && |mat| == n * n && (sel.Some? ==> Centres(t.assoc, sel.value))
    requires Shaped(Append(t, pop, stop, avg, sel, act, mat), n)
    requires Step(t.assoc, f1, f2, ps, n, |t.avgs| + 1 == ps.maxIterations, t.perturbed, pop, stop, avg, sel,
                  t.actives[|t.avgs|], t.mats[|t.avgs|], act, mat)
    ensures RoundOf(Append(t, pop, stop, avg, sel, act, mat), f1, f2, ps, n, |t.avgs|)
  {
    var u := Append(t, pop, stop, avg, sel, act, mat);
    var k := |t.avgs|;
    assert u.pops[k] == pop && u.stops[k] == stop && u.avgs[k] == avg;
    assert u.actives[k] == t.actives[k] && u.mats[k] == t.mats[k] && u.actives[k + 1] == act && u.mats[k + 1] == mat;
    assert (if k < |u.rounds| then Some(u.rounds[k]) else None) == sel;
  }

  /** A trace extended by one more round is still a trace. */
  lemma PlayedAppend(t: Trace, f1: seq<Feature>, f2: seq<Feature>, ps: Params, fs: Maths, n: nat,
                     pop: seq<real>, stop: IIDyn.Stop, avg: real, sel: Option<seq<nat>>, act: seq<bool>, mat: seq<real>)
    requires Played(t, f1, f2, ps, fs, n) && |t.rounds| == |t.avgs|
    requires |pop| == n && |act| == n && |mat| == n * n && (sel.Some? ==> Centres(t.assoc, sel.value))
    requires Step(t.assoc, f1, f2, ps, n, |t.avgs| + 1 == ps.maxIterations, t.perturbed, pop, stop, avg, sel,
                  t.actives[|t.avgs|], t.mats[|t.avgs|], act, mat)
    ensures Played(Append(t, pop, stop, avg, sel, act, mat), f1, f2, ps, fs, n)
  {
    AppendShaped(t, n, pop, stop, avg, sel, act, mat);
    AppendRound(t, f1, f2, ps, n, pop, stop, avg, sel, act, mat);
    var u := Append(t, pop, stop, avg, sel, act, mat);
    PlayedExtend(t, u, f1, f2, ps, fs, n);
  }

  /** The start of a round: the population restarts from `perturbed`,
      `iidyn` runs on the current matrix, and the average payoff of the
      population it reaches is `x·A·x`. */
  method RunDynamics(m: array<real>, pop: array<real>, ap: array<real>, perturbed: seq<real>)
    returns (avg: real, ghost stop: IIDyn.Stop)
    requires pop.Length == ap.Length == |perturbed| && m.Length == pop.Length * pop.Length
    requires m != pop && m != ap && pop != ap
    modifies pop, ap
    ensures var r := IIDyn.IidynOf(m[..], pop.Length, perturbed, TerminationThreshold, IidynMaxIterations);
            pop[..] == r.x && stop == r.stop
    ensures stop != IIDyn.NonFinite && pop.Length > 0 ==> IIDyn.IsSimplex(pop[..])
    ensures avg == IIDyn.InnerProduct(IIDyn.MatVec(m[..], pop[..], pop.Length), pop[..])
  {
    var n := pop.Length;
    forall i | 0 <= i < n {
      pop[i] := perturbed[i];
    }
    assert pop[..] == perturbed;
    var _, s := IIDyn.Iidyn(m[..], pop, n, TerminationThreshold, IidynMaxIterations);
    stop := s;
    ghost var reached := pop[..];
    IIDyn.Mult(m[..], pop[..], n, ap);
    assert pop[..] == reached;
    avg := IIDyn.Dot(ap[..], pop[..]);
  }

  /** The second half of a round: select the strategies over the quality
      threshold, record them, and mask around them unless this is the last
      iteration. */
  method SelectAndMask(m: array<real>, active: array<bool>, assoc: seq<Association>, f1: seq<Feature>,
                       f2: seq<Feature>, ps: Params, shares: seq<real>, iter: nat, good: seq<Record>)
    returns (chosen: seq<nat>, good': seq<Record>)
    requires |assoc| > 0 && AllIndexes(assoc, f1, f2) && |shares| == |assoc|
    requires m.Length == |assoc| * |assoc| && active.Length == |assoc|
    modifies m, active
    ensures chosen == Above(shares, MaxOf(shares) * ps.qualityThreshold, |assoc|) && Centres(assoc, chosen)
    ensures good' == good + RoundRecords(iter, chosen)
    ensures iter + 1 == ps.maxIterations ==> active[..] == old(active[..]) && m[..] == old(m[..])
    ensures iter + 1 != ps.maxIterations ==>
              active[..] == Survive(old(active[..]), Hits(assoc, f1, f2, ps.radius, chosen))
              && m[..] == Cleared(old(m[..]), |assoc|, Kill(old(active[..]), Hits(assoc, f1, f2, ps.radius, chosen)))
  {
    chosen := GoodStrategies(shares, ps.qualityThreshold);
    good' := good + RoundRecords(iter, chosen);
    assert Strategies(good'[|good|..]) == chosen by {
      assert good'[|good|..] == RoundRecords(iter, chosen);
    }
    if iter != ps.maxIterations - 1 {
      DeleteFeatureFromMatch(m, f1, f2, assoc, good', |good|, active, ps.radius);
    }
  }

  /** A round that ran the dynamics and then stopped or selected and masked
      is a `Step`. */
  lemma StepOf(assoc: seq<Association>, f1: seq<Feature>, f2: seq<Feature>, ps: Params, n: nat, last: bool,
               start: seq<real>, pop: seq<real>, stop: IIDyn.Stop, avg: real, sel: Option<seq<nat>>,
               act: seq<bool>, mat: seq<real>, act': seq<bool>, mat': seq<real>)
    requires |assoc| == n > 0 && AllIndexes(assoc, f1, f2) && |start| == n && |pop| == n && |mat| == n * n && |act| == n
    requires pop == IIDyn.IidynOf(mat, n, start, TerminationThreshold, IidynMaxIterations).x
    requires stop == IIDyn.IidynOf(mat, n, start, TerminationThreshold, IidynMaxIterations).stop
    requires stop != IIDyn.NonFinite ==> IIDyn.IsSimplex(pop)
    requires avg == IIDyn.InnerProduct(IIDyn.MatVec(mat, pop, n), pop)
    requires sel.None? ==> avg < ps.averagePayoffThreshold && act' == act && mat' == mat
    requires sel.Some? ==>
               avg >= ps.averagePayoffThreshold
               && sel.value == Above(pop, MaxOf(pop) * ps.qualityThreshold, n) && Centres(assoc, sel.value)
               && (last ==> act' == act && mat' == mat)
               && (!last ==> act' == Survive(act, Hits(assoc, f1, f2, ps.radius, sel.value))
                             && mat' == Cleared(mat, n, Kill(act, Hits(assoc, f1, f2, ps.radius, sel.value))))
    ensures sel.Some? ==> Centres(assoc, sel.value)
    ensures Step(assoc, f1, f2, ps, n, last, start, pop, stop, avg, sel, act, mat, act', mat')
  {
  }

  /** One iteration of the round loop: restart from the perturbed
      population, run the dynamics, stop (`None`) when the average payoff
      is below the threshold, otherwise record the selected strategies and,
      unless this is the last iteration, mask around them. */
  method PlayRound(m: array<real>, active: array<bool>, pop: array<real>, ap: array<real>,
                   assoc: seq<Association>, f1: seq<Feature>, f2: seq<Feature>, ps: Params,
                   perturbed: seq<real>, iter: nat, good: seq<Record>)
    returns (sel: Option<seq<nat>>, good': seq<Record>, ghost x: seq<real>, ghost stop: IIDyn.Stop, ghost avg: real)
    requires |assoc| > 0 && AllIndexes(assoc, f1, f2) && |perturbed| == |assoc|
    requires m.Length == |assoc| * |assoc| && active.Length == pop.Length == ap.Length == |assoc|
    requires m != pop && m != ap && pop != ap
    modifies m, active, pop, ap
    ensures |x| == |assoc| && (sel.Some? ==> Centres(assoc, sel.value))
    ensures Step(assoc, f1, f2, ps, |assoc|, iter + 1 == ps.maxIterations, perturbed, x, stop, avg, sel,
                 old(active[..]), old(m[..]), active[..], m[..])
    ensures good' == if sel.Some? then good + RoundRecords(iter, sel.value) else good
  {
    var payoff;
    payoff, stop := RunDynamics(m, pop, ap, perturbed);
    var shares := pop[..];
    x, avg := shares, payoff;
    ghost var act, mat := active[..], m[..];
    if payoff < ps.averagePayoffThreshold {
      sel, good' := None, good;
    } else {
      var chosen;
      chosen, good' := SelectAndMask(m, active, assoc, f1, f2, ps, shares, iter, good);
      sel := Some(chosen);
    }
    StepOf(assoc, f1, f2, ps, |assoc|, iter + 1 == ps.maxIterations, perturbed, x, stop, avg, sel, act, mat, active[..], m[..]);
  }

  lemma KeptAppend(rounds: seq<seq<nat>>, sel: seq<nat>, minGood: nat)
    ensures Kept(rounds + [sel], minGood)
            == Kept(rounds, minGood) + (if |sel| >= minGood then RoundRecords(|rounds|, sel) else [])
    ensures Accepted(rounds + [sel], minGood) == Accepted(rounds, minGood) + (if |sel| >= minGood then 1 else 0)
  {
    assert (rounds + [sel])[..|rounds|] == rounds;
  }

  /** `a - b` in `size_t`. */
  function SizeSub(a: nat, b: nat): (d: nat)
    ensures d < 0x1_0000_0000_0000_0000
    ensures a < 0x1_0000_0000_0000_0000 && b <= a ==> d == a - b
    ensures a < b <= 0x1_0000_0000_0000_0000 ==> d == a - b + 0x1_0000_0000_0000_0000
  {
    (a - b) % 0x1_0000_0000_0000_0000
  }

  /** The per-pair counts `kmatcher2` appends to the `.strats` stream for
      the rounds `rounds` over `n` strategies, after their number: for every
      accepted round, `n` minus the number of records held right after its
      strategies were appended. Nothing separates one pair's counts from
      the next pair's in that stream. */
  function StratCounts(rounds: seq<seq<nat>>, n: nat, minGood: nat): seq<nat>
  {
    if |rounds| == 0 then []
    else
      var init, last := rounds[..|rounds| - 1], rounds[|rounds| - 1];
      StratCounts(init, n, minGood)
      + (if |last| >= minGood then [SizeSub(n, |Kept(init, minGood)| + |last|)] else [])
  }

  /** One count per accepted round, each the strategies not yet selected
      when no more than `n` records were held. */
  lemma {:induction false} StratCountsExactly(rounds: seq<seq<nat>>, n: nat, minGood: nat)
    ensures |StratCounts(rounds, n, minGood)| == Accepted(rounds, minGood)
    ensures forall k :: 0 <= k < |StratCounts(rounds, n, minGood)| ==> StratCounts(rounds, n, minGood)[k] < 0x1_0000_0000_0000_0000
  {
    if |rounds| > 0 {
      StratCountsExactly(rounds[..|rounds| - 1], n, minGood);
    }
  }

  lemma StratCountsAppend(rounds: seq<seq<nat>>, sel: seq<nat>, n: nat, minGood: nat)
    ensures StratCounts(rounds + [sel], n, minGood)
            == StratCounts(rounds, n, minGood)
               + (if |sel| >= minGood then [SizeSub(n, |Kept(rounds, minGood)| + |sel|)] else [])
  {
    assert (rounds + [sel])[..|rounds|] == rounds;
  }

  /** One round of the loop of `kmatcher2`, recorded at the end of the trace `t`. */
  method RecordRound(m: array<real>, active: array<bool>, pop: array<real>, ap: array<real>,
                     assoc: seq<Association>, f1: seq<Feature>, f2: seq<Feature>, ps: Params, fs: Maths,
                     perturbed: seq<real>, iter: nat, good: seq<Record>, ghost t: Trace)
    returns (sel: Option<seq<nat>>, good': seq<Record>, ghost t': Trace)
    requires |assoc| > 0 && t.perturbed == perturbed && t.assoc == assoc && iter == |t.avgs|
    requires m.Length == |assoc| * |assoc| && active.Length == pop.Length == ap.Length == |assoc|
    requires m != pop && m != ap && pop != ap
    requires Played(t, f1, f2, ps, fs, |assoc|) && |t.rounds| == |t.avgs|
    requires t.actives[|t.avgs|] == active[..] && t.mats[|t.avgs|] == m[..]
    modifies m, active, pop, ap
    ensures t'.assoc == t.assoc && t'.nbrs == t.nbrs && t'.perturbed == t.perturbed
    ensures Played(t', f1, f2, ps, fs, |assoc|) && |t'.avgs| == |t.avgs| + 1
    ensures t'.actives[|t'.avgs|] == active[..] && t'.mats[|t'.avgs|] == m[..]
    ensures t'.rounds == if sel.Some? then t.rounds + [sel.value] else t.rounds
    ensures good' == if sel.Some? then good + RoundRecords(iter, sel.value) else good
  {
    ghost var x, stop, avg;
    sel, good', x, stop, avg := PlayRound(m, active, pop, ap, assoc, f1, f2, ps, perturbed, iter, good);
    PlayedAppend(t, f1, f2, ps, fs, |assoc|, x, stop, avg, sel, active[..], m[..]);
    t' := Append(t, x, stop, avg, sel, active[..], m[..]);
  }

  /** The end of a round that selected `sel`: its records are erased when
      they are fewer than `minGood`; otherwise the round counts as a group
      and `cur_iter_strategies`, taken from the records held before any
      erasing, joins the `.strats` counts. */
  method Tally(next: seq<Record>, groups: nat, strats: seq<nat>, sel: seq<nat>, n: nat, minGood: nat,
               ghost rounds: seq<seq<nat>>)
    returns (good': seq<Record>, groups': nat, strats': seq<nat>)
    requires next == Kept(rounds, minGood) + RoundRecords(|rounds|, sel)
    requires groups == Accepted(rounds, minGood) && strats == StratCounts(rounds, n, minGood)
    ensures good' == Kept(rounds + [sel], minGood) && groups' == Accepted(rounds + [sel], minGood)
    ensures strats' == StratCounts(rounds + [sel], n, minGood)
  {
    KeptAppend(rounds, sel, minGood);
    StratCountsAppend(rounds, sel, n, minGood);
    var cur := SizeSub(n, |next|);
    good' := next;
    groups' := groups;
    strats' := strats;
    if |sel| < minGood {
      good' := good'[..|good'| - |sel|];
    } else {
      strats' := strats' + [cur];
      groups' := groups' + 1;
    }
  }

  /** The round loop of `kmatcher2`, from the trace `t0` of no rounds. */
  method RoundLoop(m: array<real>, active: array<bool>, pop: array<real>, ap: array<real>,
                   assoc: seq<Association>, f1: seq<Feature>, f2: seq<Feature>, ps: Params, fs: Maths,
                   perturbed: seq<real>, ghost t0: Trace)
    returns (good: seq<Record>, groups: nat, strats: seq<nat>, ghost t: Trace)
    requires |assoc| > 0 && t0.perturbed == perturbed && t0.assoc == assoc
    requires m.Length == |assoc| * |assoc| && active.Length == pop.Length == ap.Length == |assoc|
    requires m != pop && m != ap && pop != ap
    requires Played(t0, f1, f2, ps, fs, |assoc|) && t0.avgs == [] && t0.rounds == []
    requires t0.actives[0] == active[..] && t0.mats[0] == m[..]
    modifies m, active, pop, ap
    ensures t.assoc == t0.assoc && t.nbrs == t0.nbrs && t.perturbed == t0.perturbed
    ensures Played(t, f1, f2, ps, fs, |assoc|) && Finished(t, ps)
    ensures good == Kept(t.rounds, ps.minGoodStrategies) && groups == Accepted(t.rounds, ps.minGoodStrategies)
    ensures strats == StratCounts(t.rounds, |assoc|, ps.minGoodStrategies)
  {
    good := [];
    groups := 0;
    strats := [];
    t := t0;
    var n := |assoc|;
    var iter := 0;
    while iter < ps.maxIterations
      invariant 0 <= iter <= ps.maxIterations && |t.avgs| == |t.rounds| == iter
      invariant t.assoc == t0.assoc && t.nbrs == t0.nbrs && t.perturbed == t0.perturbed
      invariant Played(t, f1, f2, ps, fs, n)
      invariant t.actives[iter] == active[..] && t.mats[iter] == m[..]
      invariant good == Kept(t.rounds, ps.minGoodStrategies) && groups == Accepted(t.rounds, ps.minGoodStrategies)
      invariant strats == StratCounts(t.rounds, n, ps.minGoodStrategies)
    {
      var sel, next;
      sel, next, t := RecordRound(m, active, pop, ap, assoc, f1, f2, ps, fs, perturbed, iter, good, t);
      if sel.None? {
        break;
      }
      assert t.rounds == t.rounds[..iter] + [sel.value];
      good, groups, strats := Tally(next, groups, strats, sel.value, n, ps.minGoodStrategies, t.rounds[..iter]);
      iter := iter + 1;
    }
  }

  /** The result of matching one image pair: the kept records, the number
      of accepted rounds, the lines of the `matchinit` and `.grp` files, and
      the per-pair counts `kmatcher2` appends to the `.strats` stream
      after their number, with nothing between pairs. */
  datatype Matching = Matching(good: seq<Record>, groups: nat, lines: seq<seq<int>>, groupLines: seq<seq<int>>,
                               strats: seq<nat>)

  /** `kmatcher2`: lay out the strategies, fill the compatibility matrix,
      perturb the uniform population, then run rounds of the dynamics until
      the average payoff drops below the threshold or the iterations run
      out, keeping the rounds that select enough strategies. */
  method Kmatcher2(f1: seq<Feature>, f2: seq<Feature>, imgFrom: int, imgTo: int, ps: Params, fs: Maths,
                   draws: seq<Draw>)
    returns (r: Result<Matching>, ghost t: Trace)
    requires AllFit(f1, f2) && ScalesNonZero(f1)
    requires ps.neighbours <= |f2| || |f2| == 0
    requires |f1| > 0 && |draws| == |f1| * ps.neighbours
    ensures r.Fail? <==> ps.neighbours == 0 || |f2| == 0
    ensures r.Fail? ==> r.error == RuntimeError
    ensures r.Ok? ==>
              var n := |f1| * ps.neighbours;
              LaidOut(t.assoc, f1, f2, ps.neighbours, fs, t.nbrs)
              && t.perturbed == PerturbOf(n, draws) && IIDyn.Sum(t.perturbed) == 1.0
              && Played(t, f1, f2, ps, fs, n) && Finished(t, ps)
              && r.value.good == Kept(t.rounds, ps.minGoodStrategies)
              && r.value.groups == Accepted(t.rounds, ps.minGoodStrategies)
              && Centres(t.assoc, Strategies(r.value.good))
              && r.value.lines == MatchLines(imgFrom, imgTo, r.value.good, t.assoc, f1, f2)
              && r.value.groupLines == GroupLines(imgFrom, imgTo, r.value.good, t.assoc, f1, f2)
              && r.value.strats == StratCounts(t.rounds, n, ps.minGoodStrategies)
              && |r.value.strats| == r.value.groups
  {
    var layout, nbrs := Layout(f1, f2, ps.neighbours, fs);
    if layout.Fail? {
      t := Trace([], [], [], [], [], [], [], [], []);
      return Fail(layout.error), t;
    }
    var assoc := layout.value;
    var n := |assoc|;
    Arith.MulAtLeast(|f1|, ps.neighbours);
    var m := FillCompatibility(assoc, f1, f2, ps.payoffAlpha, fs.exp);
    var perturbed := Perturb(n, draws);
    var active := new bool[n](_ => true);
    var pop := new real[n];
    var ap := new real[n];
    var good, groups, strats;
    good, groups, strats, t := RoundLoop(m, active, pop, ap, assoc, f1, f2, ps, fs, perturbed,
                                 Trace(assoc, nbrs, perturbed, [], [], [], [], [active[..]], [m[..]]));
    KeptExactly(t.rounds, ps.minGoodStrategies);
    StratCountsExactly(t.rounds, n, ps.minGoodStrategies);
    forall z | 0 <= z < |good|
      ensures Strategies(good)[z] < n
    {
      assert good[z] in Kept(t.rounds, ps.minGoodStrategies);
    }
    r := Ok(Matching(good, groups, MatchLines(imgFrom, imgTo, good, assoc, f1, f2),
                     GroupLines(imgFrom, imgTo, good, assoc, f1, f2), strats));
  }
}
