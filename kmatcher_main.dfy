/** The command line of the keypoint matcher (src/kmatcher/main.cpp,
    `main`): the argument count check, the optional reference image and the
    order in which image pairs are handed to `kmatcher2`, and the `.mgrp`
    summary of an all-vs-all run. */
module KMatcherMain {
  import KMatcher

  /** `arg_num` of the source. */
  const ArgNum := 11

  /** `main` prints its usage line and returns 1 unless the argument count
      (program name included) lies in `arg_num - 1 .. arg_num + 1`. */
  predicate ArgsAccepted(argc: int)
  {
    !(argc < ArgNum - 1 || argc > ArgNum + 1)
  }

  lemma ArgsAcceptedRange(argc: int)
    ensures ArgsAccepted(argc) <==> 10 <= argc <= 12
  {
  }

  /** The reference image: `atoi(argv[10])` when exactly eleven arguments are
      given, otherwise -1 (all-vs-all); `refArg` is the parsed `argv[10]`. */
  function ReferenceImage(argc: int, refArg: int): (base: int)
    ensures argc != ArgNum ==> base == -1
    ensures argc == ArgNum ==> base == refArg
  {
    if argc == ArgNum then refArg else -1
  }

  /** The pairs of one row of the all-vs-all schedule: `(i, j)` for
      `j = i+1 .. n-1`. */
  function RowPairs(n: nat, i: nat): (ps: seq<(nat, nat)>)
    requires i < n
    ensures |ps| == n - i - 1
    ensures forall t :: 0 <= t < |ps| ==> ps[t] == (i, i + 1 + t)
  {
    seq(n - i - 1, t requires 0 <= t < n - i - 1 => (i, i + 1 + t))
  }

  /** Rows `0 .. r-1` of the all-vs-all schedule, row by row. */
  function PairsUpTo(n: nat, r: nat): (ps: seq<(nat, nat)>)
    requires r <= n
  {
    if r == 0 then [] else PairsUpTo(n, r - 1) + RowPairs(n, r - 1)
  }

  /** Every image pair `(i, j)` with `i < j`. */
  function AllVsAll(n: nat): seq<(nat, nat)>
    requires n > 0
  {
    PairsUpTo(n, n - 1)
  }

  /** The rows so far hold exactly the pairs `(a, b)` with `a < r` and
      `a < b < n`. */
  lemma {:induction false} PairsUpToMembers(n: nat, r: nat)
    requires r <= n
    ensures forall a: nat, b: nat :: (a, b) in PairsUpTo(n, r) <==> a < r && a < b < n
  {
    if r > 0 {
      PairsUpToMembers(n, r - 1);
      var prev, row := PairsUpTo(n, r - 1), RowPairs(n, r - 1);
      assert PairsUpTo(n, r) == prev + row;
      forall a: nat, b: nat
        ensures (a, b) in prev + row <==> a < r && a < b < n
      {
        if a == r - 1 && a < b < n {
          assert row[b - r] == (a, b);
        }
      }
    }
  }

  /** The rows so far are in lexicographic order. */
  lemma {:induction false} PairsUpToOrdered(n: nat, r: nat)
    requires r <= n
    ensures forall s, t :: 0 <= s < t < |PairsUpTo(n, r)| ==>
              PairsUpTo(n, r)[s].0 < PairsUpTo(n, r)[t].0
              || (PairsUpTo(n, r)[s].0 == PairsUpTo(n, r)[t].0 && PairsUpTo(n, r)[s].1 < PairsUpTo(n, r)[t].1)
  {
    if r > 0 {
      PairsUpToOrdered(n, r - 1);
      PairsUpToMembers(n, r - 1);
      var prev, row := PairsUpTo(n, r - 1), RowPairs(n, r - 1);
      assert PairsUpTo(n, r) == prev + row;
      forall s | 0 <= s < |prev| ensures prev[s].0 < r - 1 {
        assert prev[s] in prev;
      }
    }
  }

  /** The rows so far hold `r*n - r*(r+1)/2` pairs. */
  lemma {:induction false} PairsUpToCount(n: nat, r: nat)
    requires r <= n
    ensures 2 * |PairsUpTo(n, r)| == r * (2 * n - r - 1)
  {
    if r > 0 {
      PairsUpToCount(n, r - 1);
      assert 2 * |PairsUpTo(n, r)| == (r - 1) * (2 * n - (r - 1) - 1) + 2 * (n - r);
      assert (r - 1) * (2 * n - r) + 2 * (n - r) == r * (2 * n - r - 1);
    }
  }

  /** The rows so far hold exactly the pairs `(a, b)` with `a < r` and
      `a < b < n`, in lexicographic order, `r*n - r*(r+1)/2` of them. */
  lemma PairsUpToExactly(n: nat, r: nat)
    requires r <= n
    ensures forall a: nat, b: nat :: (a, b) in PairsUpTo(n, r) <==> a < r && a < b < n
    ensures forall s, t :: 0 <= s < t < |PairsUpTo(n, r)| ==>
              PairsUpTo(n, r)[s].0 < PairsUpTo(n, r)[t].0
              || (PairsUpTo(n, r)[s].0 == PairsUpTo(n, r)[t].0 && PairsUpTo(n, r)[s].1 < PairsUpTo(n, r)[t].1)
    ensures 2 * |PairsUpTo(n, r)| == r * (2 * n - r - 1)
  {
    PairsUpToMembers(n, r);
    PairsUpToOrdered(n, r);
    PairsUpToCount(n, r);
  }

  /** The all-vs-all schedule lists each unordered pair once, `n(n-1)/2`
      pairs in all. */
  lemma AllVsAllExactly(n: nat)
    requires n > 0
    ensures forall a: nat, b: nat :: (a, b) in AllVsAll(n) <==> a < b < n
    ensures 2 * |AllVsAll(n)| == n * (n - 1)
  {
    PairsUpToExactly(n, n - 1);
  }

  /** The one-vs-all schedule: `(base, j)` for every other image `j`, in
      increasing order of `j`. */
  function OneVsAll(n: nat, base: nat, j: nat): (ps: seq<(nat, nat)>)
    requires j <= n
    ensures forall t :: 0 <= t < |ps| ==> ps[t].0 == base && ps[t].1 < j && ps[t].1 != base
  {
    if j == 0 then []
    else OneVsAll(n, base, j - 1) + (if j - 1 == base then [] else [(base, j - 1)])
  }

  /** Every image but the reference is matched against it. */
  lemma {:induction false} OneVsAllMembers(n: nat, base: nat, j: nat)
    requires j <= n
    ensures forall b: nat :: (base, b) in OneVsAll(n, base, j) <==> b < j && b != base
  {
    if j > 0 {
      OneVsAllMembers(n, base, j - 1);
      var prev := OneVsAll(n, base, j - 1);
      var last: seq<(nat, nat)> := if j - 1 == base then [] else [(base, j - 1)];
      assert OneVsAll(n, base, j) == prev + last;
      forall b: nat ensures (base, b) in prev + last <==> b < j && b != base {
        assert (base, b) in prev + last <==> (base, b) in prev || (base, b) in last;
      }
    }
  }

  /** ... once each, in increasing order: `n - 1` pairs for a reference
      inside the list. */
  lemma {:induction false} OneVsAllOrdered(n: nat, base: nat, j: nat)
    requires j <= n
    ensures |OneVsAll(n, base, j)| == if base < j then j - 1 else j
    ensures forall s, t :: 0 <= s < t < |OneVsAll(n, base, j)| ==> OneVsAll(n, base, j)[s].1 < OneVsAll(n, base, j)[t].1
  {
    if j > 0 {
      OneVsAllOrdered(n, base, j - 1);
      var prev := OneVsAll(n, base, j - 1);
      var last: seq<(nat, nat)> := if j - 1 == base then [] else [(base, j - 1)];
      assert OneVsAll(n, base, j) == prev + last;
      forall s, t | 0 <= s < t < |prev + last|
        ensures (prev + last)[s].1 < (prev + last)[t].1
      {
        if t >= |prev| {
          assert prev[s].1 < j - 1;
        }
      }
    }
  }

  /** The image pairs `main` hands to `kmatcher2`, in order: one-vs-all
      when a reference image is given, all-vs-all otherwise.  The source
      indexes the key file list with the reference image and loops up to
      `n_imgs - 1` in unsigned arithmetic, so it needs a reference inside
      the list and, for all-vs-all, a non-empty list. */
  method Schedule(nImgs: nat, base: int) returns (pairs: seq<(nat, nat)>)
    requires base == -1 || 0 <= base < nImgs
    requires base == -1 ==> nImgs > 0
    ensures base != -1 ==> pairs == OneVsAll(nImgs, base, nImgs)
    ensures base == -1 ==> pairs == AllVsAll(nImgs)
  {
    pairs := [];
    if base != -1 {
      var j := 0;
      while j < nImgs
        invariant 0 <= j <= nImgs && pairs == OneVsAll(nImgs, base, j)
      {
        if j != base {
          pairs := pairs + [(base, j)];
        }
        j := j + 1;
      }
    } else {
      var i := 0;
      while i < nImgs - 1
        invariant 0 <= i <= nImgs - 1 && pairs == PairsUpTo(nImgs, i)
      {
        var j := i + 1;
        while j < nImgs
          invariant i + 1 <= j <= nImgs && pairs == PairsUpTo(nImgs, i) + RowPairs(nImgs, i)[..j - i - 1]
        {
          assert RowPairs(nImgs, i)[..j - i] == RowPairs(nImgs, i)[..j - i - 1] + [(i, j)];
          pairs := pairs + [(i, j)];
          j := j + 1;
        }
        assert RowPairs(nImgs, i)[..j - i - 1] == RowPairs(nImgs, i);
        i := i + 1;
      }
    }
  }

  /** The `.mgrp` file of an all-vs-all run: for the `k`-th scheduled pair,
      the line `i j n_matches n_groups` with the counts of `results[k]`, the
      result `kmatcher2` returned for that pair.  Written pair by pair. */
  function MgrpLines(pairs: seq<(nat, nat)>, results: seq<KMatcher.Matching>): (lines: seq<seq<int>>)
    requires |pairs| == |results|
    ensures |lines| == |pairs| && forall k :: 0 <= k < |lines| ==> |lines[k]| == 4
    decreases |pairs|
  {
    if |pairs| == 0 then []
    else
      var k := |pairs| - 1;
      MgrpLines(pairs[..k], results[..k]) + [[pairs[k].0, pairs[k].1, |results[k].good|, results[k].groups]]
  }

  /** Line `k` of the `.mgrp` file names pair `k` and the kept matches and
      accepted groups of result `k`. */
  lemma {:induction false} MgrpLinesAt(pairs: seq<(nat, nat)>, results: seq<KMatcher.Matching>, k: nat)
    requires |pairs| == |results| && k < |pairs|
    ensures MgrpLines(pairs, results)[k] == [pairs[k].0, pairs[k].1, |results[k].good|, results[k].groups]
    decreases |pairs|
  {
    var last := |pairs| - 1;
    if k < last {
      MgrpLinesAt(pairs[..last], results[..last], k);
    }
  }

  /** In an all-vs-all run over `n` images the `.mgrp` file has one line per
      unordered image pair, `n(n-1)/2` lines, the line for `(a, b)` starting
      with `a b` and first for the lexicographically smaller pair. */
  lemma {:induction false} MgrpAllVsAll(n: nat, results: seq<KMatcher.Matching>)
    requires n > 0 && |results| == |AllVsAll(n)|
    ensures 2 * |MgrpLines(AllVsAll(n), results)| == n * (n - 1)
    ensures forall k :: 0 <= k < |results| ==>
              MgrpLines(AllVsAll(n), results)[k][..2] == [AllVsAll(n)[k].0, AllVsAll(n)[k].1]
              && AllVsAll(n)[k].0 < AllVsAll(n)[k].1 < n
    ensures forall a: nat, b: nat :: (a, b) in AllVsAll(n) <==> a < b < n
  {
    var pairs := AllVsAll(n);
    AllVsAllExactly(n);
    forall k | 0 <= k < |results|
      ensures MgrpLines(pairs, results)[k][..2] == [pairs[k].0, pairs[k].1]
      ensures pairs[k].0 < pairs[k].1 < n
    {
      MgrpLinesAt(pairs, results, k);
      assert pairs[k] in pairs;
    }
  }
}
