/** Bundler's `BaseApp` bookkeeping: match indices of image pairs, the
    search for the n-th registered camera and for an image by name, and
    `ReindexPoints`, which keeps only the views of adjusted, licensed
    images and renumbers those images densely. */
module BundlerBase {

  /** The range of `unsigned long`. */
  const ULongRange: nat := 0x1_0000_0000_0000_0000

  /** `(unsigned long) i`. */
  function ToULong(i: int): (u: nat)
    ensures u < ULongRange && (i >= 0 && i < ULongRange ==> u == i)
  {
    i % ULongRange
  }

  /** `MatchIndex`: an ordered pair of image indices. */
  datatype MatchIndex = MatchIndex(first: nat, second: nat)

  /** `GetMatchIndex`: the pair as given. */
  function GetMatchIndex(i1: int, i2: int): (m: MatchIndex)
    ensures i1 >= 0 && i2 >= 0 && i1 < ULongRange && i2 < ULongRange ==> m == MatchIndex(i1, i2)
  {
    MatchIndex(ToULong(i1), ToULong(i2))
  }

  /** `GetMatchIndexUnordered`: the pair with the smaller index first. */
  function GetMatchIndexUnordered(i1: int, i2: int): (m: MatchIndex)
  {
    if i1 < i2 then MatchIndex(ToULong(i1), ToULong(i2)) else MatchIndex(ToULong(i2), ToULong(i1))
  }

  /** The unordered index ignores the order of its arguments, and it puts
      the smaller of two image indices first. */
  lemma MatchIndexUnordered(i1: int, i2: int)
    ensures GetMatchIndexUnordered(i1, i2) == GetMatchIndexUnordered(i2, i1)
    ensures 0 <= i1 < ULongRange && 0 <= i2 < ULongRange ==>
              var m := GetMatchIndexUnordered(i1, i2);
              m.first <= m.second && {m.first, m.second} == {i1 as nat, i2 as nat}
  {
  }

  /** `GetNumMatches` over the match table `numMatches` (`MatchTable` is
      not part of this model): the pair is looked up smaller index first. */
  function GetNumMatches(numMatches: MatchIndex -> nat, i1: int, i2: int): (n: nat)
  {
    numMatches(GetMatchIndex(if i1 < i2 then i1 else i2, if i1 < i2 then i2 else i1))
  }

  /** The number of matches of a pair does not depend on its order, and it
      is the table's entry for the pair written smaller index first. */
  lemma NumMatchesSymmetric(numMatches: MatchIndex -> nat, i1: int, i2: int)
    ensures GetNumMatches(numMatches, i1, i2) == GetNumMatches(numMatches, i2, i1)
    ensures GetNumMatches(numMatches, i1, i2) == numMatches(GetMatchIndexUnordered(i1, i2))
  {
  }

  /** What `ReindexPoints` and the searches read of an image: its name,
      whether its camera was adjusted, and whether it is licensed. */
  datatype ImageData = ImageData(name: string, adjusted: bool, licensed: bool)

  /** A view of a point: an image index and a key index. */
  datatype View = View(image: int, key: int)

  /** `PointData`, by its views. */
  datatype PointData = PointData(views: seq<View>)

  /** The number of adjusted cameras. */
  function CountAdjusted(imgs: seq<ImageData>): (n: nat)
    ensures n <= |imgs|
  {
    if |imgs| == 0 then 0
    else CountAdjusted(imgs[..|imgs| - 1]) + (if imgs[|imgs| - 1].adjusted then 1 else 0)
  }

  lemma {:induction false} CountAdjustedPrefix(imgs: seq<ImageData>, a: nat)
    requires a < |imgs| && imgs[a].adjusted
    ensures CountAdjusted(imgs[..a]) < CountAdjusted(imgs)
    decreases |imgs|
  {
    var init := imgs[..|imgs| - 1];
    if a < |imgs| - 1 {
      CountAdjustedPrefix(init, a);
      assert init[..a] == imgs[..a];
    } else {
      assert init == imgs[..a];
    }
  }

  /** An image `ReindexPoints` keeps. */
  predicate Kept(img: ImageData)
  {
    img.adjusted && img.licensed
  }

  /** The number of images kept. */
  function CountKept(imgs: seq<ImageData>): (n: nat)
    ensures n <= |imgs|
  {
    if |imgs| == 0 then 0
    else CountKept(imgs[..|imgs| - 1]) + (if Kept(imgs[|imgs| - 1]) then 1 else 0)
  }

  /** The new index of image `v`: the number of kept images before it. */
  function Rank(imgs: seq<ImageData>, v: nat): nat
    requires v <= |imgs|
  {
    CountKept(imgs[..v])
  }

  lemma {:induction false} CountKeptPrefix(imgs: seq<ImageData>, a: nat, b: nat)
    requires a <= b <= |imgs|
    ensures CountKept(imgs[..a]) <= CountKept(imgs[..b])
    ensures a < b && Kept(imgs[a]) ==> CountKept(imgs[..a]) < CountKept(imgs[..b])
    decreases b - a
  {
    if a < b {
      CountKeptPrefix(imgs, a, b - 1);
      assert imgs[..b][..b - 1] == imgs[..b - 1];
      if a == b - 1 {
        assert imgs[..b][b - 1] == imgs[a];
      }
    }
  }

  /** Kept images are renumbered in their order, onto `0 ..
      CountKept(imgs) - 1`. */
  lemma RankOrdered(imgs: seq<ImageData>, v1: nat, v2: nat)
    requires v1 < v2 < |imgs| && Kept(imgs[v1]) && Kept(imgs[v2])
    ensures Rank(imgs, v1) < Rank(imgs, v2) < CountKept(imgs)
  {
    CountKeptPrefix(imgs, v1, v2);
    CountKeptPrefix(imgs, v2, |imgs|);
    assert imgs[..|imgs|] == imgs;
  }

  /** Every new index is taken by a kept image. */
  lemma {:induction false} RankOnto(imgs: seq<ImageData>, r: nat) returns (v: nat)
    requires r < CountKept(imgs)
    ensures v < |imgs| && Kept(imgs[v]) && Rank(imgs, v) == r
    decreases |imgs|
  {
    var init := imgs[..|imgs| - 1];
    if r < CountKept(init) {
      v := RankOnto(init, r);
      assert imgs[..v] == init[..v];
    } else {
      v := |imgs| - 1;
      assert imgs[..v] == init;
    }
  }

  /** The views `ReindexPoints` leaves to a point: those of kept images,
      in their order, each with its image renumbered. */
  function Reindexed(imgs: seq<ImageData>, views: seq<View>): (vs: seq<View>)
    requires forall j :: 0 <= j < |views| ==> 0 <= views[j].image < |imgs|
    ensures |vs| <= |views|
  {
    if |views| == 0 then []
    else
      var last := views[|views| - 1];
      Reindexed(imgs, views[..|views| - 1])
        + (if Kept(imgs[last.image]) then [View(Rank(imgs, last.image), last.key)] else [])
  }

  /** Every view left refers to a kept image by its new index and keeps
      its key; their number is the number of views of kept images. */
  lemma {:induction false} ReindexedViews(imgs: seq<ImageData>, views: seq<View>)
    requires forall j :: 0 <= j < |views| ==> 0 <= views[j].image < |imgs|
    ensures forall j :: 0 <= j < |Reindexed(imgs, views)| ==>
              0 <= Reindexed(imgs, views)[j].image < CountKept(imgs)
    ensures |Reindexed(imgs, views)| == KeptViews(imgs, views)
    decreases |views|
  {
    if |views| > 0 {
      var last := views[|views| - 1];
      ReindexedViews(imgs, views[..|views| - 1]);
      if Kept(imgs[last.image]) {
        CountKeptPrefix(imgs, last.image, |imgs|);
        assert imgs[..|imgs|] == imgs;
      }
    }
  }

  /** The number of views whose image is kept. */
  function KeptViews(imgs: seq<ImageData>, views: seq<View>): nat
    requires forall j :: 0 <= j < |views| ==> 0 <= views[j].image < |imgs|
  {
    if |views| == 0 then 0
    else KeptViews(imgs, views[..|views| - 1]) + (if Kept(imgs[views[|views| - 1].image]) then 1 else 0)
  }

  /** The views of every point refer to images. */
  predicate ViewsInRange(imgs: seq<ImageData>, points: seq<PointData>)
  {
    forall i, j :: 0 <= i < |points| && 0 <= j < |points[i].views| ==> 0 <= points[i].views[j].image < |imgs|
  }

  /** The view counts of the points. */
  function ViewCounts(points: seq<PointData>): (ns: seq<nat>)
    ensures |ns| == |points| && forall i :: 0 <= i < |points| ==> ns[i] == |points[i].views|
  {
    seq(|points|, i requires 0 <= i < |points| => |points[i].views|)
  }

  /** `BaseApp`: the images, the points and the view counts before the
      last reindexing. */
  class BaseApp {
    var images: seq<ImageData>
    var points: seq<PointData>
    var numViewsOrig: seq<nat>

    /** `GetRegisteredCameraIndex`: the image whose camera is the adjusted
        one preceded by exactly `cam` adjusted cameras, or -1 when there
        are not that many. */
    method GetRegisteredCameraIndex(cam: int) returns (r: int)
      ensures r == -1 <==> cam < 0 || CountAdjusted(images) <= cam
      ensures r != -1 ==> 0 <= r < |images| && images[r].adjusted && CountAdjusted(images[..r]) == cam
    {
      var count := 0;
      for i := 0 to |images|
        invariant count == CountAdjusted(images[..i])
        invariant count <= cam || cam < 0
      {
        assert images[..i + 1][..i] == images[..i];
        if images[i].adjusted {
          if count == cam {
            CountAdjustedPrefix(images, i);
            return i;
          }
          count := count + 1;
        }
      }
      assert images[..|images|] == images;
      return -1;
    }

    /** `FindImageWithName`: the first image with the name, or -1. */
    method FindImageWithName(name: string) returns (r: int)
      ensures r == -1 <==> forall i :: 0 <= i < |images| ==> images[i].name != name
      ensures r != -1 ==> 0 <= r < |images| && images[r].name == name
                          && forall i :: 0 <= i < r ==> images[i].name != name
    {
      for i := 0 to |images|
        invariant forall k :: 0 <= k < i ==> images[k].name != name
      {
        if images[i].name == name {
          return i;
        }
      }
      return -1;
    }

    /** `ReindexPoints`: every point keeps, in order, the views of kept
        images, renumbered; the view counts before are recorded. */
    method ReindexPoints()
      requires ViewsInRange(images, points)
      modifies this
      ensures images == old(images) && numViewsOrig == ViewCounts(old(points))
      ensures |points| == |old(points)|
      ensures forall i :: 0 <= i < |points| ==> points[i].views == Reindexed(images, old(points)[i].views)
    {
      var reindex := ReindexTable(images);
      numViewsOrig := [];
      ghost var orig := points;
      for i := 0 to |points|
        invariant images == old(images) && |points| == |orig|
        invariant forall k :: 0 <= k < |points| ==> (k < i ==> points[k].views == Reindexed(images, orig[k].views))
                                                    && (k >= i ==> points[k] == orig[k])
        invariant numViewsOrig == ViewCounts(orig[..i])
        invariant forall v :: 0 <= v < |images| && Kept(images[v]) ==> reindex[v] == Rank(images, v)
      {
        numViewsOrig := numViewsOrig + [|points[i].views|];
        assert ViewCounts(orig[..i + 1]) == ViewCounts(orig[..i]) + [|orig[i].views|];
        var views := FilterViews(images, reindex, points[i].views);
        points := points[i := PointData(views)];
      }
      assert orig[..|orig|] == orig;
    }
  }

  /** The `reindex` array: each kept image's new index (the other entries
      are never read). */
  method ReindexTable(imgs: seq<ImageData>) returns (reindex: array<int>)
    ensures reindex.Length == |imgs| && fresh(reindex)
    ensures forall v :: 0 <= v < |imgs| && Kept(imgs[v]) ==> reindex[v] == Rank(imgs, v)
  {
    reindex := new int[|imgs|];
    var adjusted := 0;
    for i := 0 to |imgs|
      invariant adjusted == CountKept(imgs[..i])
      invariant forall v :: 0 <= v < i && Kept(imgs[v]) ==> reindex[v] == Rank(imgs, v)
    {
      assert imgs[..i + 1][..i] == imgs[..i];
      if imgs[i].adjusted && imgs[i].licensed {
        reindex[i] := adjusted;
        adjusted := adjusted + 1;
      }
    }
  }

  /** The inner loop of `ReindexPoints`: a view of an image not kept is
      erased (the next view moves into its place), any other gets its
      image renumbered. */
  method FilterViews(imgs: seq<ImageData>, reindex: array<int>, views0: seq<View>) returns (views: seq<View>)
    requires reindex.Length == |imgs|
    requires forall v :: 0 <= v < |imgs| && Kept(imgs[v]) ==> reindex[v] == Rank(imgs, v)
    requires forall j :: 0 <= j < |views0| ==> 0 <= views0[j].image < |imgs|
    ensures views == Reindexed(imgs, views0)
  {
    views := views0;
    var numViews := |views|;
    var j := 0;
    ghost var done := 0;
    while j < numViews
      invariant 0 <= j <= numViews == |views| && done <= |views0|
      invariant views[..j] == Reindexed(imgs, views0[..done]) && views[j..] == views0[done..]
    {
      assert views0[..done + 1][..done] == views0[..done];
      assert views[j] == views0[done];
      var v := views[j].image;
      if !imgs[v].adjusted || !imgs[v].licensed {
        views := views[..j] + views[j + 1..];
        numViews := numViews - 1;
      } else {
        views := views[j := View(reindex[v], views[j].key)];
        j := j + 1;
      }
      done := done + 1;
    }
    assert views0[..done] == views0;
    assert views[..j] == views;
  }
}
