/** Dense kernels and population dynamics of the keypoint matcher
    (src/kmatcher/iidyn.cpp).

    A payoff matrix of `n` strategies is a row-major sequence of `n*n`
    reals; populations and payoff vectors the code updates in place are
    arrays.  A mask entry `true` means the strategy is EXCLUDED from the
    computation, as in the source. */
module IIDyn {
  import opened Wrappers

  // ---------------------------------------------------------------------
  // Specification functions

  /** Sum of the entries, accumulated front to back. */
  function Sum(s: seq<real>): real
  {
    if |s| == 0 then 0.0 else Sum(s[..|s| - 1]) + s[|s| - 1]
  }

  /** Sum of the entries whose mask is false. */
  function SumM(s: seq<real>, mask: seq<bool>): real
    requires |mask| == |s|
  {
    if |s| == 0 then 0.0
    else SumM(s[..|s| - 1], mask[..|s| - 1]) + (if mask[|s| - 1] then 0.0 else s[|s| - 1])
  }

  function InnerProduct(u: seq<real>, v: seq<real>): real
    requires |u| == |v|
  {
    if |u| == 0 then 0.0
    else InnerProduct(u[..|u| - 1], v[..|u| - 1]) + u[|u| - 1] * v[|u| - 1]
  }

  /** Inner product over the entries whose mask is false. */
  function InnerProductM(u: seq<real>, v: seq<real>, mask: seq<bool>): real
    requires |u| == |v| == |mask|
  {
    if |u| == 0 then 0.0
    else InnerProductM(u[..|u| - 1], v[..|u| - 1], mask[..|u| - 1])
         + (if mask[|u| - 1] then 0.0 else u[|u| - 1] * v[|u| - 1])
  }

  function NoMask(n: nat): (m: seq<bool>)
    ensures |m| == n && forall i :: 0 <= i < n ==> !m[i]
  {
    seq(n, i => false)
  }

  predicate IsSimplex(x: seq<real>)
  {
    (forall i :: 0 <= i < |x| ==> x[i] >= 0.0) && Sum(x) == 1.0
  }

  lemma RowBounds(n: nat, j: nat)
    requires j < n
    ensures j * n + n <= n * n && j * n + j < n * n
  {
    assert (j + 1) * n <= n * n by {
      assert j + 1 <= n;
    }
  }

  /** The diagonal entry of row `j` lies inside the matrix. */
  lemma DiagonalIndex(n: nat, j: nat)
    requires j < n
    ensures j * (n + 1) == j * n + j && j * (n + 1) < n * n
  {
    RowBounds(n, j);
    assert j * (n + 1) == j * n + j;
  }

  /** The diagonal entry `A[j*(n+1)]` of row `j`. */
  function Diagonal(A: seq<real>, n: nat, j: nat): (d: real)
    requires |A| == n * n && j < n
    ensures d == Row(A, n, j)[j]
  {
    DiagonalIndex(n, j);
    RowBounds(n, j);
    A[j * (n + 1)]
  }

  /** Row `j` of the row-major `n`-by-`n` matrix `A`. */
  function Row(A: seq<real>, n: nat, j: nat): (r: seq<real>)
    requires |A| == n * n && j < n
    ensures |r| == n
  {
    RowBounds(n, j);
    A[j * n .. j * n + n]
  }

  /** The product `A x`. */
  function MatVec(A: seq<real>, x: seq<real>, n: nat): (y: seq<real>)
    requires |A| == n * n && |x| == n
    ensures |y| == n
  {
    seq(n, j requires 0 <= j < n => InnerProduct(Row(A, n, j), x))
  }

  /** Entry `(r, c)` of the row-major `n`-by-`n` matrix `A`. */
  function Entry(A: seq<real>, n: nat, r: nat, c: nat): real
    requires |A| == n * n && r < n && c < n
  {
    RowBounds(n, r);
    A[r * n + c]
  }

  /** `A` equals its transpose. */
  predicate Symmetric(A: seq<real>, n: nat)
    requires |A| == n * n
  {
    forall r, c :: 0 <= r < n && 0 <= c < n ==> Entry(A, n, r, c) == Entry(A, n, c, r)
  }

  predicate NonNegative(s: seq<real>)
  {
    forall i :: 0 <= i < |s| ==> s[i] >= 0.0
  }

  /** Negative entries replaced by zero. */
  function Clamp(s: seq<real>): (r: seq<real>)
    ensures |r| == |s|
  {
    seq(|s|, i requires 0 <= i < |s| => if s[i] >= 0.0 then s[i] else 0.0)
  }

  /** Every unmasked negative entry replaced by zero; masked entries kept. */
  function ClampM(s: seq<real>, mask: seq<bool>): (r: seq<real>)
    requires |mask| == |s|
    ensures |r| == |s|
  {
    seq(|s|, i requires 0 <= i < |s| => if mask[i] || s[i] >= 0.0 then s[i] else 0.0)
  }

  function Divided(s: seq<real>, c: real): (r: seq<real>)
    requires c != 0.0
    ensures |r| == |s|
  {
    seq(|s|, i requires 0 <= i < |s| => s[i] / c)
  }

  function DividedM(s: seq<real>, mask: seq<bool>, c: real): (r: seq<real>)
    requires c != 0.0 && |mask| == |s|
    ensures |r| == |s|
  {
    seq(|s|, i requires 0 <= i < |s| => if mask[i] then s[i] else s[i] / c)
  }

  function Scaled(s: seq<real>, c: real): (r: seq<real>)
    ensures |r| == |s|
  {
    seq(|s|, i requires 0 <= i < |s| => s[i] * c)
  }

  function ScaledM(s: seq<real>, c: real, mask: seq<bool>): (r: seq<real>)
    requires |mask| == |s|
    ensures |r| == |s|
  {
    seq(|s|, i requires 0 <= i < |s| => if mask[i] then s[i] else s[i] * c)
  }

  /** `y` with every entry multiplied by the matching entry of `x` times `c`. */
  function MulScaledBy(x: seq<real>, y: seq<real>, c: real): (r: seq<real>)
    requires |x| == |y|
    ensures |r| == |y|
  {
    seq(|y|, i requires 0 <= i < |y| => y[i] * (x[i] * c))
  }

  /** `y` moved the fraction `alfa` of the way towards `x`. */
  function Towards(x: seq<real>, y: seq<real>, alfa: real): (r: seq<real>)
    requires |x| == |y|
    ensures |r| == |y|
  {
    seq(|y|, i requires 0 <= i < |y| => alfa * (x[i] - y[i]) + y[i])
  }

  function TowardsM(x: seq<real>, y: seq<real>, alfa: real, mask: seq<bool>): (r: seq<real>)
    requires |x| == |y| == |mask|
    ensures |r| == |y|
  {
    seq(|y|, i requires 0 <= i < |y| => if mask[i] then y[i] else alfa * (x[i] - y[i]) + y[i])
  }

  function Min(a: real, b: real): real { if a <= b then a else b }

  /** The deviation of strategy `i` from a Nash equilibrium: the payoff
      gap `xAx - Ax[i]`, capped by the population share `x[i]`. */
  function Deviation(xi: real, axi: real, xAx: real): real
  {
    if xAx - axi > xi then xi else xAx - axi
  }

  /** The Nash error: the sum of the squared deviations. */
  function NashGap(x: seq<real>, Ax: seq<real>, xAx: real): real
    requires |x| == |Ax|
  {
    if |x| == 0 then 0.0
    else
      var d := Deviation(x[|x| - 1], Ax[|x| - 1], xAx);
      NashGap(x[..|x| - 1], Ax[..|x| - 1], xAx) + d * d
  }

  function NashGapM(x: seq<real>, Ax: seq<real>, xAx: real, mask: seq<bool>): real
    requires |x| == |Ax| == |mask|
  {
    if |x| == 0 then 0.0
    else
      var d := Deviation(x[|x| - 1], Ax[|x| - 1], xAx);
      NashGapM(x[..|x| - 1], Ax[..|x| - 1], xAx, mask[..|x| - 1])
      + (if mask[|x| - 1] then 0.0 else d * d)
  }

  // ---------------------------------------------------------------------
  // Lemmas about the specification functions

  lemma {:induction false} SumClampNonNegative(s: seq<real>)
    ensures Sum(Clamp(s)) >= 0.0
  {
    if |s| > 0 {
      assert Clamp(s)[..|s| - 1] == Clamp(s[..|s| - 1]);
      SumClampNonNegative(s[..|s| - 1]);
    }
  }

  lemma {:induction false} SumDivided(s: seq<real>, c: real)
    requires c != 0.0
    ensures Sum(Divided(s, c)) == Sum(s) / c
  {
    if |s| > 0 {
      assert Divided(s, c)[..|s| - 1] == Divided(s[..|s| - 1], c);
      SumDivided(s[..|s| - 1], c);
      DivideSum(Sum(s[..|s| - 1]), s[|s| - 1], c);
    }
  }

  lemma DivideSum(a: real, b: real, c: real)
    requires c != 0.0
    ensures a / c + b / c == (a + b) / c
  {
  }

  lemma MulMonotone(a: real, m: real, x: real)
    requires a <= m && x >= 0.0
    ensures a * x <= m * x
  {
    assert (m - a) * x >= 0.0;
  }

  lemma Distribute(m: real, a: real, b: real)
    ensures m * (a + b) == m * a + m * b
  {
  }

  /** `simplexify` yields a point of the simplex whenever the clamped entries
      have a non-zero sum. */
  lemma SimplexifyIsSimplex(s: seq<real>)
    requires Sum(Clamp(s)) != 0.0
    ensures IsSimplex(Divided(Clamp(s), Sum(Clamp(s))))
  {
    var c := Sum(Clamp(s));
    SumClampNonNegative(s);
    SumDivided(Clamp(s), c);
    forall i | 0 <= i < |s| ensures Divided(Clamp(s), c)[i] >= 0.0 {
      assert Clamp(s)[i] >= 0.0 && c > 0.0;
    }
  }

  lemma {:induction false} SumMClampNonNegative(s: seq<real>, mask: seq<bool>)
    requires |mask| == |s|
    ensures SumM(ClampM(s, mask), mask) >= 0.0
  {
    if |s| > 0 {
      assert ClampM(s, mask)[..|s| - 1] == ClampM(s[..|s| - 1], mask[..|s| - 1]);
      SumMClampNonNegative(s[..|s| - 1], mask[..|s| - 1]);
    }
  }

  lemma {:induction false} SumMDivided(s: seq<real>, mask: seq<bool>, c: real)
    requires c != 0.0 && |mask| == |s|
    ensures SumM(DividedM(s, mask, c), mask) == SumM(s, mask) / c
  {
    if |s| > 0 {
      assert DividedM(s, mask, c)[..|s| - 1] == DividedM(s[..|s| - 1], mask[..|s| - 1], c);
      SumMDivided(s[..|s| - 1], mask[..|s| - 1], c);
      DivideSum(SumM(s[..|s| - 1], mask[..|s| - 1]), s[|s| - 1], c);
    }
  }

  /** `simplexify_m` makes the unmasked entries non-negative with sum 1. */
  lemma SimplexifyMIsSimplex(s: seq<real>, mask: seq<bool>)
    requires |mask| == |s| && SumM(ClampM(s, mask), mask) != 0.0
    ensures var r := DividedM(ClampM(s, mask), mask, SumM(ClampM(s, mask), mask));
            (forall i :: 0 <= i < |s| && !mask[i] ==> r[i] >= 0.0) && SumM(r, mask) == 1.0
  {
    var t := ClampM(s, mask);
    var c := SumM(t, mask);
    SumMClampNonNegative(s, mask);
    SumMDivided(t, mask, c);
    DivideSelf(c);
    forall i | 0 <= i < |s| && !mask[i] ensures DividedM(t, mask, c)[i] >= 0.0 {
      assert t[i] >= 0.0 && c > 0.0;
      DivideNonNegative(t[i], c);
    }
  }

  lemma DivideSelf(c: real)
    requires c != 0.0
    ensures c / c == 1.0
  {
  }

  lemma DivideNonNegative(a: real, c: real)
    requires a >= 0.0 && c > 0.0
    ensures a / c >= 0.0
  {
  }

  /** With no entry masked, the masked sum is the plain sum. */
  lemma {:induction false} SumMNoMask(s: seq<real>)
    ensures SumM(s, NoMask(|s|)) == Sum(s)
  {
    if |s| > 0 {
      assert NoMask(|s|)[..|s| - 1] == NoMask(|s| - 1);
      SumMNoMask(s[..|s| - 1]);
    }
  }

  /** With no entry masked, the masked inner product is the plain one. */
  lemma {:induction false} InnerProductMNoMask(u: seq<real>, v: seq<real>)
    requires |u| == |v|
    ensures InnerProductM(u, v, NoMask(|u|)) == InnerProduct(u, v)
  {
    if |u| > 0 {
      assert NoMask(|u|)[..|u| - 1] == NoMask(|u| - 1);
      InnerProductMNoMask(u[..|u| - 1], v[..|u| - 1]);
    }
  }

  lemma {:induction false} InnerProductSymmetric(u: seq<real>, v: seq<real>)
    requires |u| == |v|
    ensures InnerProduct(u, v) == InnerProduct(v, u)
  {
    if |u| > 0 {
      InnerProductSymmetric(u[..|u| - 1], v[..|u| - 1]);
    }
  }

  lemma {:induction false} NashGapNonNegative(x: seq<real>, Ax: seq<real>, xAx: real)
    requires |x| == |Ax|
    ensures NashGap(x, Ax, xAx) >= 0.0
  {
    if |x| > 0 {
      NashGapNonNegative(x[..|x| - 1], Ax[..|x| - 1], xAx);
      var d := Deviation(x[|x| - 1], Ax[|x| - 1], xAx);
      assert d * d >= 0.0;
    }
  }

  lemma {:induction false} NashGapMNonNegative(x: seq<real>, Ax: seq<real>, xAx: real, mask: seq<bool>)
    requires |x| == |Ax| == |mask|
    ensures NashGapM(x, Ax, xAx, mask) >= 0.0
  {
    if |x| > 0 {
      NashGapMNonNegative(x[..|x| - 1], Ax[..|x| - 1], xAx, mask[..|x| - 1]);
      var d := Deviation(x[|x| - 1], Ax[|x| - 1], xAx);
      assert d * d >= 0.0;
    }
  }

  /** At an interior point with every payoff equal to the average payoff the
      Nash error vanishes. */
  lemma {:induction false} NashGapZeroAtEqualPayoffs(x: seq<real>, Ax: seq<real>, xAx: real)
    requires |x| == |Ax|
    requires forall i :: 0 <= i < |x| ==> Ax[i] == xAx && x[i] >= 0.0
    ensures NashGap(x, Ax, xAx) == 0.0
  {
    if |x| > 0 {
      NashGapZeroAtEqualPayoffs(x[..|x| - 1], Ax[..|x| - 1], xAx);
    }
  }

  lemma {:induction false} SumScaled(s: seq<real>, c: real)
    ensures Sum(Scaled(s, c)) == Sum(s) * c
  {
    if |s| > 0 {
      forall k | 0 <= k < |s| - 1 ensures Scaled(s, c)[k] == Scaled(s[..|s| - 1], c)[k] {
      }
      assert Scaled(s, c)[..|s| - 1] == Scaled(s[..|s| - 1], c);
      SumScaled(s[..|s| - 1], c);
    }
  }

  lemma {:induction false} SumMulScaled(x: seq<real>, y: seq<real>, c: real)
    requires |x| == |y|
    ensures Sum(MulScaledBy(x, y, c)) == InnerProduct(x, y) * c
  {
    if |y| > 0 {
      forall k | 0 <= k < |y| - 1
        ensures MulScaledBy(x, y, c)[k] == MulScaledBy(x[..|y| - 1], y[..|y| - 1], c)[k]
      {
      }
      assert MulScaledBy(x, y, c)[..|y| - 1] == MulScaledBy(x[..|y| - 1], y[..|y| - 1], c);
      SumMulScaled(x[..|y| - 1], y[..|y| - 1], c);
    }
  }

  /** One replicator step `x[i] *= Ax[i] / xAx` with `xAx = x.Ax` leaves a
      population whose entries sum to 1, whenever `xAx` is non-zero. */
  lemma ReplicatorStepSumsToOne(Ax: seq<real>, x: seq<real>, xAx: real)
    requires |Ax| == |x| && xAx == InnerProduct(Ax, x) && xAx != 0.0
    ensures Sum(MulScaledBy(Ax, x, 1.0 / xAx)) == 1.0
  {
    var c := 1.0 / xAx;
    SumMulScaled(Ax, x, c);
    MulInverse(xAx);
    assert Sum(MulScaledBy(Ax, x, c)) == xAx * c;
  }

  lemma MulInverse(d: real)
    requires d != 0.0
    ensures d * (1.0 / d) == 1.0
  {
  }

  /** `linear_comb` with `alfa = 0` leaves `y` as it was and with `alfa = 1`
      copies `x` into `y`. */
  lemma TowardsEnds(x: seq<real>, y: seq<real>)
    requires |x| == |y|
    ensures Towards(x, y, 0.0) == y && Towards(x, y, 1.0) == x
  {
  }

  lemma {:induction false} SumUpdate(s: seq<real>, i: nat, v: real)
    requires i < |s|
    ensures Sum(s[i := v]) == Sum(s) - s[i] + v
  {
    var t := s[i := v];
    if i < |s| - 1 {
      assert t[..|t| - 1] == s[..|s| - 1][i := v];
      SumUpdate(s[..|s| - 1], i, v);
    } else {
      assert t[..|t| - 1] == s[..|s| - 1];
    }
  }

  /** No entry of a non-negative vector exceeds its sum. */
  lemma {:induction false} EntryAtMostSum(s: seq<real>, i: nat)
    requires i < |s| && NonNegative(s)
    ensures s[i] <= Sum(s)
  {
    var t := s[i := 0.0];
    assert Clamp(t) == t;
    SumClampNonNegative(t);
    SumUpdate(s, i, 0.0);
  }

  /** Changing one entry of `v` changes `u.v` by that entry of `u` times the change. */
  lemma {:induction false} InnerProductUpdate(u: seq<real>, v: seq<real>, i: nat, e: real)
    requires |u| == |v| && i < |v|
    ensures InnerProduct(u, v[i := e]) == InnerProduct(u, v) + u[i] * (e - v[i])
  {
    var k := |u| - 1;
    var w := v[i := e];
    if i < k {
      assert w[..k] == v[..k][i := e];
      InnerProductUpdate(u[..k], v[..k], i, e);
    } else {
      assert w[..k] == v[..k];
    }
  }

  lemma {:induction false} InnerProductScaled(u: seq<real>, v: seq<real>, c: real)
    requires |u| == |v|
    ensures InnerProduct(u, Scaled(v, c)) == InnerProduct(u, v) * c
  {
    if |u| > 0 {
      var k := |u| - 1;
      forall t | 0 <= t < k ensures Scaled(v, c)[t] == Scaled(v[..k], c)[t] {
      }
      assert Scaled(v, c)[..k] == Scaled(v[..k], c);
      InnerProductScaled(u[..k], v[..k], c);
      assert u[k] * (v[k] * c) == (u[k] * v[k]) * c;
    }
  }

  lemma {:induction false} InnerProductNonNegative(u: seq<real>, v: seq<real>)
    requires |u| == |v| && NonNegative(u) && NonNegative(v)
    ensures InnerProduct(u, v) >= 0.0
  {
    if |u| > 0 {
      var k := |u| - 1;
      InnerProductNonNegative(u[..k], v[..k]);
      assert u[k] * v[k] >= 0.0;
    }
  }

  /** With a non-negative payoff matrix a replicator step from a
      non-negative population keeps every share non-negative. */
  lemma {:induction false} ReplicatorStepNonNegative(A: seq<real>, n: nat, x: seq<real>)
    requires |A| == n * n && |x| == n && NonNegative(A) && NonNegative(x)
    requires InnerProduct(MatVec(A, x, n), x) != 0.0
    ensures NonNegative(MulScaledBy(MatVec(A, x, n), x, 1.0 / InnerProduct(MatVec(A, x, n), x)))
  {
    var Ax := MatVec(A, x, n);
    forall j | 0 <= j < n ensures Ax[j] >= 0.0 {
      RowBounds(n, j);
      assert NonNegative(Row(A, n, j));
      InnerProductNonNegative(Row(A, n, j), x);
    }
    InnerProductNonNegative(Ax, x);
    var c := 1.0 / InnerProduct(Ax, x);
    assert c > 0.0;
    forall i | 0 <= i < n ensures MulScaledBy(Ax, x, c)[i] >= 0.0 {
      assert Ax[i] * c >= 0.0;
    }
  }

  // ---------------------------------------------------------------------
  // Strategy selection

  /** Index of the first maximum of the unmasked entries of `s[..k]`, or -1
      when all of them are masked. */
  function MaxPrefix(s: seq<real>, mask: seq<bool>, k: nat): (r: int)
    requires |mask| == |s| && k <= |s|
    ensures -1 <= r < k && (r >= 0 ==> !mask[r])
  {
    if k == 0 then -1
    else
      var r := MaxPrefix(s, mask, k - 1);
      if !mask[k - 1] && (r < 0 || s[k - 1] > s[r]) then k - 1 else r
  }

  /** Index of the first minimum of `s[..k]` among the unmasked entries with
      positive share `x`, or -1 when there is none. */
  function MinPosPrefix(s: seq<real>, x: seq<real>, mask: seq<bool>, k: nat): (r: int)
    requires |mask| == |s| == |x| && k <= |s|
    ensures -1 <= r < k && (r >= 0 ==> !mask[r] && x[r] > 0.0)
  {
    if k == 0 then -1
    else
      var r := MinPosPrefix(s, x, mask, k - 1);
      if !mask[k - 1] && x[k - 1] > 0.0 && (r < 0 || s[k - 1] < s[r]) then k - 1 else r
  }

  /** `i` is the first maximum of the unmasked entries of `s`. */
  predicate IsFirstMax(s: seq<real>, mask: seq<bool>, i: int)
    requires |mask| == |s|
  {
    0 <= i < |s| && !mask[i]
    && (forall j :: 0 <= j < |s| && !mask[j] ==> s[j] <= s[i])
    && (forall j :: 0 <= j < i && !mask[j] ==> s[j] < s[i])
  }

  /** `i` is the first minimum of `s` among the unmasked entries with a
      positive share in `x`. */
  predicate IsFirstPosMin(s: seq<real>, x: seq<real>, mask: seq<bool>, i: int)
    requires |mask| == |s| == |x|
  {
    0 <= i < |s| && !mask[i] && x[i] > 0.0
    && (forall j :: 0 <= j < |s| && !mask[j] && x[j] > 0.0 ==> s[i] <= s[j])
    && (forall j :: 0 <= j < i && !mask[j] && x[j] > 0.0 ==> s[i] < s[j])
  }

  lemma {:induction false} MaxPrefixIsFirstMax(s: seq<real>, mask: seq<bool>, k: nat)
    requires |mask| == |s| && k <= |s|
    ensures var r := MaxPrefix(s, mask, k);
            (r < 0 <==> forall j :: 0 <= j < k ==> mask[j])
            && (r >= 0 ==> (forall j :: 0 <= j < k && !mask[j] ==> s[j] <= s[r])
                           && (forall j :: 0 <= j < r && !mask[j] ==> s[j] < s[r]))
  {
    if k > 0 {
      MaxPrefixIsFirstMax(s, mask, k - 1);
    }
  }

  lemma {:induction false} MinPosPrefixIsFirstMin(s: seq<real>, x: seq<real>, mask: seq<bool>, k: nat)
    requires |mask| == |s| == |x| && k <= |s|
    ensures var r := MinPosPrefix(s, x, mask, k);
            (r < 0 <==> forall j :: 0 <= j < k ==> mask[j] || x[j] <= 0.0)
            && (r >= 0 ==> (forall j :: 0 <= j < k && !mask[j] && x[j] > 0.0 ==> s[r] <= s[j])
                           && (forall j :: 0 <= j < r && !mask[j] && x[j] > 0.0 ==> s[r] < s[j]))
  {
    if k > 0 {
      MinPosPrefixIsFirstMin(s, x, mask, k - 1);
    }
  }

  /** The pure strategy chosen for the next step, with its payoff advantage
      `delta`.  `NoStrategy` is the source's `idx = -1` (every strategy masked
      or none at all). */
  datatype Selection = NoStrategy | Pick(idx: nat, delta: real)

  /** The selection rule: the best response `argmax Ax` with `delta = max - xAx`,
      unless the worst used strategy (`argmin Ax` over `x[i] > 0`) lags further
      behind, in which case it is picked with `delta = -(xAx - min)`. */
  function Choose(Ax: seq<real>, x: seq<real>, mask: seq<bool>, xAx: real): (r: Selection)
    requires |mask| == |Ax| == |x|
    ensures r.Pick? ==> r.idx < |Ax| && !mask[r.idx]
  {
    var hi := MaxPrefix(Ax, mask, |Ax|);
    var lo := MinPosPrefix(Ax, x, mask, |Ax|);
    if hi < 0 then NoStrategy
    else if lo >= 0 && Ax[hi] - xAx < xAx - Ax[lo] then Pick(lo, -(xAx - Ax[lo]))
    else Pick(hi, Ax[hi] - xAx)
  }

  /** The two outcomes of the selection rule, stated against the first
      maximum and the first positive-share minimum. */
  lemma ChooseCases(Ax: seq<real>, x: seq<real>, mask: seq<bool>, xAx: real)
    requires |mask| == |Ax| == |x|
    ensures var r := Choose(Ax, x, mask, xAx);
            (r.NoStrategy? <==> forall j :: 0 <= j < |Ax| ==> mask[j])
            && (r.Pick? ==> r.delta == Ax[r.idx] - xAx)
            && (r.Pick? ==> IsFirstMax(Ax, mask, r.idx) || (IsFirstPosMin(Ax, x, mask, r.idx) && r.delta < 0.0))
            && (r.Pick? && r.delta >= 0.0 ==> IsFirstMax(Ax, mask, r.idx))
  {
    MaxPrefixIsFirstMax(Ax, mask, |Ax|);
    MinPosPrefixIsFirstMin(Ax, x, mask, |Ax|);
  }

  lemma {:induction false} InnerProductBoundedByMax(Ax: seq<real>, x: seq<real>, m: real)
    requires |Ax| == |x|
    requires forall i :: 0 <= i < |x| ==> x[i] >= 0.0 && Ax[i] <= m
    ensures InnerProduct(Ax, x) <= m * Sum(x)
  {
    if |x| > 0 {
      var k := |x| - 1;
      InnerProductBoundedByMax(Ax[..k], x[..k], m);
      MulMonotone(Ax[k], m, x[k]);
      Distribute(m, Sum(x[..k]), x[k]);
    }
  }

  /** On the simplex the best response never pays less than the average, so
      the unmasked best-response branch always has `delta >= 0`. */
  lemma BestResponseGainNonNegative(Ax: seq<real>, x: seq<real>)
    requires |Ax| == |x| > 0 && IsSimplex(x)
    ensures var hi := MaxPrefix(Ax, NoMask(|x|), |x|);
            0 <= hi && Ax[hi] - InnerProduct(Ax, x) >= 0.0
  {
    var hi := MaxPrefix(Ax, NoMask(|x|), |x|);
    MaxPrefixIsFirstMax(Ax, NoMask(|x|), |x|);
    InnerProductBoundedByMax(Ax, x, Ax[hi]);
  }

  // ---------------------------------------------------------------------
  // Step size of the infection/immunization dynamics

  datatype Step = Step(mu: real, remove: bool)

  /** The step size `mu` of one `iidyn` iteration and whether the picked
      strategy is extinguished.  `None` stands for the one case the source
      computes an infinite `mu` and carries on with non-finite values: a
      worst response at a vertex (`x[idx] = 1`) with `den >= 0`. */
  function StepSize(delta: real, den: real, xi: real): (r: Option<Step>)
    ensures delta >= 0.0 ==> r.Some? && 0.0 <= r.value.mu <= 1.0 && !r.value.remove
    ensures delta < 0.0 && den < 0.0 ==> r.Some? && r.value.mu <= 0.0
    ensures r.None? <==> delta < 0.0 && xi == 1.0 && den >= 0.0
    ensures r.Some? ==>
              (r.value.remove <==>
                 delta < 0.0 && !(den < 0.0 && xi != 1.0 && xi / (xi - 1.0) < -delta / den))
  {
    if delta >= 0.0 then
      var mu := if den < 0.0 then Min(1.0, -delta / den) else 1.0;
      Some(Step(if mu < 0.0 then 0.0 else mu, false))
    else if xi == 1.0 then
      // x[idx] / (x[idx] - 1) is +infinity: it never drops below -delta/den,
      // and with den < 0 it is then capped to 0.
      if den < 0.0 then Some(Step(0.0, true)) else None
    else
      var mu0 := xi / (xi - 1.0);
      if den < 0.0 then
        var tmp := -delta / den;
        var mu := if mu0 < tmp then tmp else mu0;
        Some(Step(if mu > 0.0 then 0.0 else mu, !(mu0 < tmp)))
      else Some(Step(mu0, true))
  }

  /** `simplexify` as a function of the population it starts from. */
  function Simplexified(s: seq<real>): (r: seq<real>)
    ensures |r| == |s|
  {
    var c := Clamp(s);
    if Sum(c) != 0.0 then Divided(c, Sum(c)) else c
  }

  /** The mixed population `(1 - mu) x + mu e_idx`. */
  function Mixed(x: seq<real>, idx: nat, mu: real): (r: seq<real>)
    requires idx < |x|
    ensures |r| == |x|
  {
    var y := Scaled(x, 1.0 - mu);
    y[idx := y[idx] + mu]
  }

  /** The population one `iidyn` iteration reaches before `simplexify`:
      every share scaled by `1 - mu`, then the picked share extinguished or
      raised by `mu`. */
  function Moved(x: seq<real>, idx: nat, st: Step): (r: seq<real>)
    requires idx < |x|
    ensures |r| == |x|
  {
    if st.remove then Scaled(x, 1.0 - st.mu)[idx := 0.0] else Mixed(x, idx, st.mu)
  }

  lemma ProductNonNegative(a: real, b: real)
    requires a >= 0.0 && b >= 0.0
    ensures a * b >= 0.0
  {
  }

  lemma NonPositiveFactor(a: real, b: real)
    requires b > 0.0 && a * b <= 0.0
    ensures a <= 0.0
  {
  }

  /** A step that keeps a share `xi` in [0, 1] on the simplex: `mu <= 1`;
      a kept share does not go negative; an extinguished share is exactly
      where the mixture `(1 - mu) xi + mu` puts it, unless it was the whole
      population, which is extinguished with `mu = 0`. */
  predicate SafeStep(xi: real, st: Step)
  {
    st.mu <= 1.0
    && (!st.remove ==> xi * (1.0 - st.mu) + st.mu >= 0.0)
    && (st.remove && xi != 1.0 ==> xi * (1.0 - st.mu) + st.mu == 0.0)
    && (st.remove && xi == 1.0 ==> st.mu == 0.0)
  }

  /** Every step `StepSize` takes on a share in [0, 1] is safe. */
  lemma StepShare(delta: real, den: real, xi: real, st: Step)
    requires 0.0 <= xi <= 1.0 && StepSize(delta, den, xi) == Some(st)
    ensures SafeStep(xi, st)
  {
    if delta < 0.0 && xi != 1.0 {
      var mu0 := xi / (xi - 1.0);
      assert mu0 * (1.0 - xi) == -xi;
      NonPositiveFactor(mu0, 1.0 - xi);
      assert st.mu >= mu0;
      MulMonotone(mu0, st.mu, 1.0 - xi);
      assert xi * (1.0 - st.mu) + st.mu == xi + st.mu * (1.0 - xi);
    }
  }

  /** An iteration from a point of the simplex leaves no share negative. */
  lemma {:induction false} MovedNonNegative(x: seq<real>, idx: nat, st: Step)
    requires idx < |x| && IsSimplex(x) && SafeStep(x[idx], st)
    ensures NonNegative(Moved(x, idx, st))
  {
    var xi, mu := x[idx], st.mu;
    EntryAtMostSum(x, idx);
    var y := Scaled(x, 1.0 - mu);
    assert y[idx] == xi * (1.0 - mu);
    var m := Moved(x, idx, st);
    assert m == y[idx := if st.remove then 0.0 else y[idx] + mu];
    forall j | 0 <= j < |x| && j != idx ensures m[j] >= 0.0 {
      assert m[j] == y[j] == x[j] * (1.0 - mu);
      ProductNonNegative(x[j], 1.0 - mu);
    }
  }

  /** An iteration from a point of the simplex moves to a population that
      either sums to 1 and is exactly the mixture `(1 - mu) x + mu e_idx`
      (an extinguished share lands on 0 because `mu = x[idx] / (x[idx] - 1)`),
      or sums to 0, which happens only when a vertex extinguishes its own
      strategy. */
  lemma {:induction false} MovedSum(x: seq<real>, idx: nat, st: Step)
    requires idx < |x| && Sum(x) == 1.0 && SafeStep(x[idx], st)
    ensures Sum(Moved(x, idx, st)) == 0.0
            || (Sum(Moved(x, idx, st)) == 1.0 && Moved(x, idx, st) == Mixed(x, idx, st.mu))
  {
    var xi, mu := x[idx], st.mu;
    var y := Scaled(x, 1.0 - mu);
    var yi := y[idx];
    assert yi == xi * (1.0 - mu);
    if st.remove && xi == 1.0 {
      SumScaled(x, 1.0 - mu);
      SumUpdate(y, idx, 0.0);
      assert Sum(Moved(x, idx, st)) == 0.0;
    } else {
      MixedSum(x, idx, mu);
      if st.remove {
        assert yi + mu == 0.0;
      }
      assert Moved(x, idx, st) == Mixed(x, idx, mu);
    }
  }

  /** The mixture of a population summing to 1 sums to 1. */
  lemma {:induction false} MixedSum(x: seq<real>, idx: nat, mu: real)
    requires idx < |x| && Sum(x) == 1.0
    ensures Sum(Mixed(x, idx, mu)) == 1.0
  {
    var y := Scaled(x, 1.0 - mu);
    SumScaled(x, 1.0 - mu);
    SumUpdate(y, idx, y[idx] + mu);
  }

  /** The payoff of a strategy with payoff row `r` against the mixture is
      entry `j` of `linear_comb(u, v, mu)` when `u[j]` is its payoff against
      `e_idx` and `v[j]` its payoff against `x`. */
  lemma {:induction false} MixedPayoffAt(r: seq<real>, x: seq<real>, idx: nat, mu: real,
                                         u: seq<real>, v: seq<real>, j: nat)
    requires |r| == |x| && idx < |x| && |u| == |v| && j < |v|
    requires u[j] == r[idx] && v[j] == InnerProduct(r, x)
    ensures InnerProduct(r, Mixed(x, idx, mu)) == Towards(u, v, mu)[j]
  {
    var c := 1.0 - mu;
    var y := Scaled(x, c);
    var m := Mixed(x, idx, mu);
    assert m == y[idx := y[idx] + mu];
    var a, b, yi := InnerProduct(r, x), r[idx], y[idx];
    InnerProductScaled(r, x, c);
    assert InnerProduct(r, y) == a * c;
    InnerProductUpdate(r, y, idx, yi + mu);
    assert InnerProduct(r, m) == a * c + b * ((yi + mu) - yi);
    MixAlgebra(a, b, c, mu, yi);
    assert InnerProduct(r, m) == mu * (b - a) + a;
    assert Towards(u, v, mu)[j] == mu * (b - a) + a;
  }

  lemma SliceAt(A: seq<real>, lo: nat, hi: nat, k: nat)
    requires lo <= hi <= |A| && k < hi - lo
    ensures A[lo..hi][k] == A[lo + k]
  {
  }

  lemma {:induction false} SymmetricRow(A: seq<real>, n: nat, i: nat, j: nat)
    requires |A| == n * n && i < n && j < n && Symmetric(A, n)
    ensures Row(A, n, i)[j] == Row(A, n, j)[i]
  {
    assert Entry(A, n, i, j) == Entry(A, n, j, i);
    RowBounds(n, i);
    RowBounds(n, j);
    SliceAt(A, i * n, i * n + n, j);
    SliceAt(A, j * n, j * n + n, i);
  }

  lemma MixAlgebra(a: real, b: real, c: real, mu: real, yi: real)
    requires c == 1.0 - mu
    ensures a * c + b * ((yi + mu) - yi) == mu * (b - a) + a
  {
  }

  /** Column `idx` of the row-major `n`-by-`n` matrix `A`. */
  function Column(A: seq<real>, n: nat, idx: nat): (c: seq<real>)
    requires |A| == n * n && idx < n
    ensures |c| == n
  {
    seq(n, j requires 0 <= j < n => Row(A, n, j)[idx])
  }

  /** In a symmetric matrix every column is the matching row. */
  lemma {:induction false} SymmetricColumn(A: seq<real>, n: nat, idx: nat)
    requires |A| == n * n && idx < n && Symmetric(A, n)
    ensures Column(A, n, idx) == Row(A, n, idx)
  {
    forall j | 0 <= j < n ensures Column(A, n, idx)[j] == Row(A, n, idx)[j] {
      SymmetricRow(A, n, j, idx);
    }
  }

  /** When column `idx` of `A` is its row `idx` (`A` symmetric),
      `linear_comb(A[idx], Ax, mu)` turns the payoff vector of `x` into the
      payoff vector of the mixture. */
  lemma {:induction false} MixedPayoffs(A: seq<real>, n: nat, x: seq<real>, idx: nat, mu: real)
    requires |A| == n * n && |x| == n && idx < n && Column(A, n, idx) == Row(A, n, idx)
    ensures MatVec(A, Mixed(x, idx, mu), n) == Towards(Row(A, n, idx), MatVec(A, x, n), mu)
  {
    var ax, ay := MatVec(A, x, n), MatVec(A, Mixed(x, idx, mu), n);
    var t := Towards(Row(A, n, idx), ax, mu);
    forall j | 0 <= j < n ensures ay[j] == t[j] {
      var r := Row(A, n, j);
      assert r[idx] == Column(A, n, idx)[j];
      assert ax[j] == InnerProduct(r, x);
      MixedPayoffAt(r, x, idx, mu, Row(A, n, idx), ax, j);
      assert ay[j] == InnerProduct(r, Mixed(x, idx, mu));
    }
  }

  /** What a run of the dynamics left: the population, its payoff vector as
      the loop maintains it, the number of iterations and why it stopped. */
  datatype Run = Run(x: seq<real>, ax: seq<real>, niter: nat, stop: Stop)

  /** The pure strategy an iteration from `x` with payoffs `ax` picks and
      the step it takes, or `None` where the source runs into a non-finite
      value. */
  function Advance(A: seq<real>, n: nat, x: seq<real>, ax: seq<real>): (r: Option<(nat, Step)>)
    requires |A| == n * n && |x| == n && |ax| == n
    ensures r.Some? ==> r.value.0 < n
  {
    match Choose(ax, x, NoMask(n), InnerProduct(ax, x))
    case NoStrategy => None
    case Pick(idx, delta) =>
      match StepSize(delta, Diagonal(A, n, idx) - ax[idx] - delta, x[idx])
      case None => None
      case Some(st) => Some((idx, st))
  }

  /** The loop of `iidyn` from population `x` with payoff vector `ax` after
      `niter` iterations, against the squared tolerance `tol2`. */
  function IidynLoop(A: seq<real>, n: nat, x: seq<real>, ax: seq<real>, tol2: real, niter: nat, maxIters: int): (r: Run)
    requires |A| == n * n && |x| == n && |ax| == n
    ensures |r.x| == n && |r.ax| == n
    decreases maxIters - niter
  {
    if niter >= maxIters then Run(x, ax, niter, IterationCap)
    else if NashGap(x, ax, InnerProduct(ax, x)) < tol2 then Run(x, ax, niter, Converged)
    else match Advance(A, n, x, ax)
      case None => Run(x, ax, niter, NonFinite)
      case Some((idx, st)) =>
        var y := Moved(x, idx, st);
        var ax' := Towards(Row(A, n, idx), ax, st.mu);
        if Sum(Clamp(y)) == 0.0 then Run(Simplexified(y), ax', niter + 1, NonFinite)
        else IidynLoop(A, n, Simplexified(y), ax', tol2, niter + 1, maxIters)
  }

  /** One iteration of the loop that moves the population. */
  lemma IidynLoopAdvance(A: seq<real>, n: nat, x: seq<real>, ax: seq<real>, tol2: real, niter: nat, maxIters: int,
                         idx: nat, st: Step)
    requires |A| == n * n && |x| == n && |ax| == n && niter < maxIters
    requires NashGap(x, ax, InnerProduct(ax, x)) >= tol2 && Advance(A, n, x, ax) == Some((idx, st))
    ensures idx < n
    ensures var y := Moved(x, idx, st);
            var ax' := Towards(Row(A, n, idx), ax, st.mu);
            IidynLoop(A, n, x, ax, tol2, niter, maxIters)
            == if Sum(Clamp(y)) == 0.0 then Run(Simplexified(y), ax', niter + 1, NonFinite)
               else IidynLoop(A, n, Simplexified(y), ax', tol2, niter + 1, maxIters)
  {
  }

  /** The loop stops at the iteration cap, and converged where the Nash
      error is below `tol2`. */
  lemma IidynLoopHalts(A: seq<real>, n: nat, x: seq<real>, ax: seq<real>, tol2: real, niter: nat, maxIters: int)
    requires |A| == n * n && |x| == n && |ax| == n
    ensures niter >= maxIters ==> IidynLoop(A, n, x, ax, tol2, niter, maxIters) == Run(x, ax, niter, IterationCap)
    ensures niter < maxIters && NashGap(x, ax, InnerProduct(ax, x)) < tol2 ==>
              IidynLoop(A, n, x, ax, tol2, niter, maxIters) == Run(x, ax, niter, Converged)
  {
  }

  /** The loop stops on a non-finite value where no step can be taken. */
  lemma IidynLoopStuck(A: seq<real>, n: nat, x: seq<real>, ax: seq<real>, tol2: real, niter: nat, maxIters: int)
    requires |A| == n * n && |x| == n && |ax| == n && niter < maxIters
    requires NashGap(x, ax, InnerProduct(ax, x)) >= tol2 && Advance(A, n, x, ax).None?
    ensures IidynLoop(A, n, x, ax, tol2, niter, maxIters) == Run(x, ax, niter, NonFinite)
  {
  }

  /** `iidyn` on the population `x0`: simplexify, compute `Ax`, loop. */
  function IidynOf(A: seq<real>, n: nat, x0: seq<real>, toll: real, maxIters: int): (r: Run)
    requires |A| == n * n && |x0| == n
    ensures |r.x| == n
  {
    var x := Simplexified(x0);
    if n > 0 && Sum(Clamp(x0)) == 0.0 then Run(x, MatVec(A, x, n), 0, NonFinite)
    else IidynLoop(A, n, x, MatVec(A, x, n), toll * toll, 0, maxIters)
  }

  /** The loop stops as converged only at a Nash error below `tol2`. */
  lemma {:induction false} IidynLoopConverged(A: seq<real>, n: nat, x: seq<real>, ax: seq<real>, tol2: real,
                                              niter: nat, maxIters: int)
    requires |A| == n * n && |x| == n && |ax| == n
    ensures var r := IidynLoop(A, n, x, ax, tol2, niter, maxIters);
            r.stop == Converged ==> NashGap(r.x, r.ax, InnerProduct(r.ax, r.x)) < tol2
    decreases maxIters - niter
  {
    if niter < maxIters && NashGap(x, ax, InnerProduct(ax, x)) >= tol2 && Advance(A, n, x, ax).Some? {
      var (idx, st) := Advance(A, n, x, ax).value;
      var y := Moved(x, idx, st);
      if Sum(Clamp(y)) != 0.0 {
        IidynLoopConverged(A, n, Simplexified(y), Towards(Row(A, n, idx), ax, st.mu), tol2, niter + 1, maxIters);
      }
    }
  }

  /** Unless it ran into a non-finite value, the loop ends on the simplex. */
  lemma {:induction false} IidynLoopSimplex(A: seq<real>, n: nat, x: seq<real>, ax: seq<real>, tol2: real,
                                            niter: nat, maxIters: int)
    requires |A| == n * n && |x| == n && |ax| == n && (n > 0 ==> IsSimplex(x))
    ensures var r := IidynLoop(A, n, x, ax, tol2, niter, maxIters);
            r.stop != NonFinite && n > 0 ==> IsSimplex(r.x)
    decreases maxIters - niter
  {
    if niter < maxIters && NashGap(x, ax, InnerProduct(ax, x)) >= tol2 && Advance(A, n, x, ax).Some? {
      var (idx, st) := Advance(A, n, x, ax).value;
      var y := Moved(x, idx, st);
      if Sum(Clamp(y)) != 0.0 {
        SimplexifyIsSimplex(y);
        IidynLoopSimplex(A, n, Simplexified(y), Towards(Row(A, n, idx), ax, st.mu), tol2, niter + 1, maxIters);
      }
    }
  }

  /** With `A` symmetric, the payoff vector the loop updates by
      `linear_comb` stays `A x`: every iteration moves exactly to the
      mixture `(1 - mu) x + mu e_idx`, which `simplexify` leaves alone. */
  lemma {:induction false} IidynLoopPayoffs(A: seq<real>, n: nat, x: seq<real>, ax: seq<real>, tol2: real,
                                            niter: nat, maxIters: int)
    requires |A| == n * n && |x| == n && Symmetric(A, n)
    requires (n > 0 ==> IsSimplex(x)) && ax == MatVec(A, x, n)
    ensures var r := IidynLoop(A, n, x, ax, tol2, niter, maxIters);
            r.stop != NonFinite ==> r.ax == MatVec(A, r.x, n)
    decreases maxIters - niter
  {
    if niter < maxIters && NashGap(x, ax, InnerProduct(ax, x)) >= tol2 && Advance(A, n, x, ax).Some? {
      var (idx, st) := Advance(A, n, x, ax).value;
      var y := Moved(x, idx, st);
      IidynLoopAdvance(A, n, x, ax, tol2, niter, maxIters, idx, st);
      if Sum(Clamp(y)) != 0.0 {
        AdvanceSafe(A, n, x, ax, idx, st);
        MixedStep(A, n, x, idx, st);
        IidynLoopPayoffs(A, n, y, Towards(Row(A, n, idx), ax, st.mu), tol2, niter + 1, maxIters);
      }
    }
  }

  /** Every step the loop takes from a point of the simplex is safe. */
  lemma AdvanceSafe(A: seq<real>, n: nat, x: seq<real>, ax: seq<real>, idx: nat, st: Step)
    requires |A| == n * n && |x| == n && |ax| == n && IsSimplex(x)
    requires Advance(A, n, x, ax) == Some((idx, st))
    ensures idx < n && SafeStep(x[idx], st)
  {
    var delta := Choose(ax, x, NoMask(n), InnerProduct(ax, x)).delta;
    EntryAtMostSum(x, idx);
    StepShare(delta, Diagonal(A, n, idx) - ax[idx] - delta, x[idx], st);
  }

  /** With `A` symmetric, a safe step from a simplex point that does not
      empty the population lands on the simplex, which `simplexify` leaves
      alone, and `linear_comb` moves `A x` to the payoffs of the new point. */
  lemma MixedStep(A: seq<real>, n: nat, x: seq<real>, idx: nat, st: Step)
    requires |A| == n * n && |x| == n && idx < n && Symmetric(A, n)
    requires IsSimplex(x) && SafeStep(x[idx], st) && Sum(Clamp(Moved(x, idx, st))) != 0.0
    ensures var y := Moved(x, idx, st);
            Simplexified(y) == y && IsSimplex(y)
            && MatVec(A, y, n) == Towards(Row(A, n, idx), MatVec(A, x, n), st.mu)
  {
    var y := Moved(x, idx, st);
    MovedNonNegative(x, idx, st);
    MovedSum(x, idx, st);
    assert Clamp(y) == y;
    assert Sum(y) == 1.0;
    SymmetricColumn(A, n, idx);
    MixedPayoffs(A, n, x, idx, st.mu);
  }

  /** `iidyn` with a symmetric payoff matrix stops as converged only at a
      population whose true Nash error, against `A x`, is below `toll²`;
      and unless it ran into a non-finite value it ends on the simplex. */
  lemma {:induction false} IidynOfSound(A: seq<real>, n: nat, x0: seq<real>, toll: real, maxIters: int)
    requires |A| == n * n && |x0| == n
    ensures var r := IidynOf(A, n, x0, toll, maxIters);
            r.stop != NonFinite && n > 0 ==> IsSimplex(r.x)
    ensures var r := IidynOf(A, n, x0, toll, maxIters);
            Symmetric(A, n) && r.stop == Converged ==>
              NashGap(r.x, MatVec(A, r.x, n), InnerProduct(MatVec(A, r.x, n), r.x)) < toll * toll
  {
    var x := Simplexified(x0);
    if !(n > 0 && Sum(Clamp(x0)) == 0.0) {
      if n > 0 {
        SimplexifyIsSimplex(x0);
      }
      IidynLoopSimplex(A, n, x, MatVec(A, x, n), toll * toll, 0, maxIters);
      IidynLoopConverged(A, n, x, MatVec(A, x, n), toll * toll, 0, maxIters);
      if Symmetric(A, n) {
        IidynLoopPayoffs(A, n, x, MatVec(A, x, n), toll * toll, 0, maxIters);
      }
    }
  }

  // ---------------------------------------------------------------------
  // Kernels

  /** `mult`: `y := A x`. */
  method Mult(A: seq<real>, x: seq<real>, n: nat, y: array<real>)
    requires |A| == n * n && |x| == n && y.Length == n
    modifies y
    ensures y[..] == MatVec(A, x, n)
  {
    var j := 0;
    while j < n
      invariant 0 <= j <= n
      invariant forall t :: 0 <= t < j ==> y[t] == MatVec(A, x, n)[t]
    {
      y[j] := Dot(Row(A, n, j), x);
      j := j + 1;
    }
  }

  /** `mult_m`: every unmasked row of `y` becomes the masked product of that
      row of `A` with `x`; masked rows of `y` are left unwritten. */
  method MultM(A: seq<real>, x: seq<real>, n: nat, y: array<real>, mask: seq<bool>)
    requires |A| == n * n && |x| == n && y.Length == n && |mask| == n
    modifies y
    ensures forall j :: 0 <= j < n && mask[j] ==> y[j] == old(y[j])
    ensures forall j :: 0 <= j < n && !mask[j] ==> y[j] == InnerProductM(Row(A, n, j), x, mask)
  {
    var j := 0;
    while j < n
      invariant 0 <= j <= n
      invariant forall t :: j <= t < n ==> y[t] == old(y[t])
      invariant forall t :: 0 <= t < j && mask[t] ==> y[t] == old(y[t])
      invariant forall t :: 0 <= t < j && !mask[t] ==> y[t] == InnerProductM(Row(A, n, t), x, mask)
    {
      if !mask[j] {
        y[j] := DotM(Row(A, n, j), x, mask);
      }
      j := j + 1;
    }
  }

  lemma SumStep(s: seq<real>, i: nat)
    requires i < |s|
    ensures Sum(s[..i + 1]) == Sum(s[..i]) + s[i]
  {
    assert s[..i + 1][..i] == s[..i];
  }

  lemma SumMStep(s: seq<real>, mask: seq<bool>, i: nat)
    requires i < |s| == |mask|
    ensures SumM(s[..i + 1], mask[..i + 1]) == SumM(s[..i], mask[..i]) + (if mask[i] then 0.0 else s[i])
  {
    assert s[..i + 1][..i] == s[..i] && mask[..i + 1][..i] == mask[..i];
  }

  /** The first loop of `simplexify`: clamps in place and sums the result. */
  method ClampSum(x: array<real>) returns (sum: real)
    modifies x
    ensures x[..] == Clamp(old(x[..])) && sum == Sum(x[..])
  {
    ghost var s0 := x[..];
    ghost var c := Clamp(s0);
    sum := 0.0;
    var i := 0;
    while i < x.Length
      invariant 0 <= i <= x.Length
      invariant forall t :: 0 <= t < i ==> x[t] == c[t]
      invariant forall t :: i <= t < x.Length ==> x[t] == s0[t]
      invariant sum == Sum(c[..i])
    {
      SumStep(c, i);
      if x[i] >= 0.0 {
        sum := sum + x[i];
      } else {
        x[i] := 0.0;
      }
      i := i + 1;
    }
    assert x[..] == c && c[..x.Length] == c;
  }

  /** The second loop of `simplexify`: every entry divided by `c`. */
  method DivideAll(x: array<real>, c: real)
    requires c != 0.0
    modifies x
    ensures x[..] == Divided(old(x[..]), c)
  {
    ghost var s0 := x[..];
    var i := 0;
    while i < x.Length
      invariant 0 <= i <= x.Length
      invariant forall t :: 0 <= t < i ==> x[t] == s0[t] / c
      invariant forall t :: i <= t < x.Length ==> x[t] == s0[t]
    {
      x[i] := x[i] / c;
      i := i + 1;
    }
    assert x[..] == Divided(s0, c);
  }

  /** `simplexify`: clamps negative entries to 0 and divides by the sum of
      the clamped entries.  `finite` is false exactly when that sum is 0 on a
      non-empty population, where the source divides by zero; the model then
      keeps the clamped entries. */
  method Simplexify(x: array<real>) returns (finite: bool)
    modifies x
    ensures finite <==> x.Length == 0 || Sum(Clamp(old(x[..]))) != 0.0
    ensures Sum(Clamp(old(x[..]))) != 0.0 ==> x[..] == Divided(Clamp(old(x[..])), Sum(Clamp(old(x[..]))))
    ensures Sum(Clamp(old(x[..]))) == 0.0 ==> x[..] == Clamp(old(x[..]))
    ensures finite && x.Length > 0 ==> IsSimplex(x[..])
    ensures x[..] == Simplexified(old(x[..]))
  {
    ghost var s0 := x[..];
    var sum := ClampSum(x);
    finite := x.Length == 0 || sum != 0.0;
    if sum != 0.0 {
      DivideAll(x, sum);
      SimplexifyIsSimplex(s0);
    }
  }

  /** The first loop of `simplexify_m`: clamps the unmasked entries in
      place and sums them. */
  method ClampSumM(x: array<real>, mask: seq<bool>) returns (sum: real)
    requires |mask| == x.Length
    modifies x
    ensures x[..] == ClampM(old(x[..]), mask) && sum == SumM(x[..], mask)
  {
    ghost var s0 := x[..];
    ghost var c := ClampM(s0, mask);
    sum := 0.0;
    var i := 0;
    while i < x.Length
      invariant 0 <= i <= x.Length
      invariant forall t :: 0 <= t < i ==> x[t] == c[t]
      invariant forall t :: i <= t < x.Length ==> x[t] == s0[t]
      invariant sum == SumM(c[..i], mask[..i])
    {
      SumMStep(c, mask, i);
      if !mask[i] {
        if x[i] >= 0.0 {
          sum := sum + x[i];
        } else {
          x[i] := 0.0;
        }
      }
      i := i + 1;
    }
    assert x[..] == c && c[..x.Length] == c && mask[..x.Length] == mask;
  }

  /** The second loop of `simplexify_m`: every unmasked entry divided by `c`. */
  method DivideAllM(x: array<real>, mask: seq<bool>, c: real)
    requires c != 0.0 && |mask| == x.Length
    modifies x
    ensures x[..] == DividedM(old(x[..]), mask, c)
  {
    ghost var s0 := x[..];
    var i := 0;
    while i < x.Length
      invariant 0 <= i <= x.Length
      invariant forall t :: 0 <= t < i ==> x[t] == if mask[t] then s0[t] else s0[t] / c
      invariant forall t :: i <= t < x.Length ==> x[t] == s0[t]
    {
      if !mask[i] {
        x[i] := x[i] / c;
      }
      i := i + 1;
    }
    assert x[..] == DividedM(s0, mask, c);
  }

  /** `simplexify_m`: the same restricted to the unmasked entries; masked
      entries are neither clamped nor divided. */
  method SimplexifyM(x: array<real>, mask: seq<bool>) returns (finite: bool)
    requires |mask| == x.Length
    modifies x
    ensures finite <==> (forall i :: 0 <= i < x.Length ==> mask[i]) || SumM(ClampM(old(x[..]), mask), mask) != 0.0
    ensures forall i :: 0 <= i < x.Length && mask[i] ==> x[i] == old(x[i])
    ensures SumM(ClampM(old(x[..]), mask), mask) != 0.0 ==>
              x[..] == DividedM(ClampM(old(x[..]), mask), mask, SumM(ClampM(old(x[..]), mask), mask))
    ensures SumM(ClampM(old(x[..]), mask), mask) == 0.0 ==> x[..] == ClampM(old(x[..]), mask)
  {
    ghost var s0 := x[..];
    var sum := ClampSumM(x, mask);
    finite := (forall t :: 0 <= t < x.Length ==> mask[t]) || sum != 0.0;
    if sum != 0.0 {
      DivideAllM(x, mask, sum);
      assert forall t :: 0 <= t < x.Length && mask[t] ==> x[..][t] == ClampM(s0, mask)[t];
    } else {
      assert forall t :: 0 <= t < x.Length && mask[t] ==> x[..][t] == ClampM(s0, mask)[t];
    }
  }

  /** `dot`. */
  method Dot(x: seq<real>, y: seq<real>) returns (sum: real)
    requires |x| == |y|
    ensures sum == InnerProduct(x, y)
  {
    sum := 0.0;
    var i := 0;
    while i < |x|
      invariant 0 <= i <= |x|
      invariant sum == InnerProduct(x[..i], y[..i])
    {
      assert x[..i + 1][..i] == x[..i] && y[..i + 1][..i] == y[..i];
      sum := sum + x[i] * y[i];
      i := i + 1;
    }
    assert x[..i] == x && y[..i] == y;
  }

  /** `dot_m`. */
  method DotM(x: seq<real>, y: seq<real>, mask: seq<bool>) returns (sum: real)
    requires |x| == |y| == |mask|
    ensures sum == InnerProductM(x, y, mask)
  {
    sum := 0.0;
    var i := 0;
    while i < |x|
      invariant 0 <= i <= |x|
      invariant sum == InnerProductM(x[..i], y[..i], mask[..i])
    {
      assert x[..i + 1][..i] == x[..i] && y[..i + 1][..i] == y[..i];
      assert mask[..i + 1][..i] == mask[..i];
      if !mask[i] {
        sum := sum + x[i] * y[i];
      }
      i := i + 1;
    }
    assert x[..i] == x && y[..i] == y && mask[..i] == mask;
  }

  /** `scale`: `x *= c`; the total scales by `c` as well (`SumScaled`). */
  method Scale(x: array<real>, c: real)
    modifies x
    ensures x[..] == Scaled(old(x[..]), c)
  {
    var i := 0;
    while i < x.Length
      invariant 0 <= i <= x.Length
      invariant forall k :: 0 <= k < i ==> x[k] == old(x[k]) * c
      invariant forall k :: i <= k < x.Length ==> x[k] == old(x[k])
    {
      x[i] := x[i] * c;
      i := i + 1;
    }
    assert forall k :: 0 <= k < x.Length ==> x[..][k] == Scaled(old(x[..]), c)[k];
  }

  /** `scale_m`: scales the unmasked entries only. */
  method ScaleM(x: array<real>, c: real, mask: seq<bool>)
    requires |mask| == x.Length
    modifies x
    ensures x[..] == ScaledM(old(x[..]), c, mask)
    ensures forall i :: 0 <= i < x.Length && mask[i] ==> x[i] == old(x[i])
  {
    var i := 0;
    while i < x.Length
      invariant 0 <= i <= x.Length
      invariant forall k :: 0 <= k < i ==> x[k] == if mask[k] then old(x[k]) else old(x[k]) * c
      invariant forall k :: i <= k < x.Length ==> x[k] == old(x[k])
    {
      if !mask[i] {
        x[i] := x[i] * c;
      }
      i := i + 1;
    }
    assert forall k :: 0 <= k < x.Length ==> x[..][k] == ScaledM(old(x[..]), c, mask)[k];
  }

  /** `mul_scaled`: `y[i] *= x[i] * c`. */
  method MulScaled(x: seq<real>, y: array<real>, c: real)
    requires |x| == y.Length
    modifies y
    ensures y[..] == MulScaledBy(x, old(y[..]), c)
  {
    var i := 0;
    while i < y.Length
      invariant 0 <= i <= y.Length
      invariant forall k :: 0 <= k < i ==> y[k] == old(y[k]) * (x[k] * c)
      invariant forall k :: i <= k < y.Length ==> y[k] == old(y[k])
    {
      y[i] := y[i] * (x[i] * c);
      i := i + 1;
    }
    assert forall k :: 0 <= k < y.Length ==> y[..][k] == MulScaledBy(x, old(y[..]), c)[k];
  }

  /** `linear_comb`: `y := alfa (x - y) + y`. */
  method LinearComb(x: seq<real>, y: array<real>, alfa: real)
    requires |x| == y.Length
    modifies y
    ensures y[..] == Towards(x, old(y[..]), alfa)
  {
    var i := 0;
    while i < y.Length
      invariant 0 <= i <= y.Length
      invariant forall k :: 0 <= k < i ==> y[k] == alfa * (x[k] - old(y[k])) + old(y[k])
      invariant forall k :: i <= k < y.Length ==> y[k] == old(y[k])
    {
      y[i] := alfa * (x[i] - y[i]) + y[i];
      i := i + 1;
    }
    assert forall k :: 0 <= k < y.Length ==> y[..][k] == Towards(x, old(y[..]), alfa)[k];
  }

  /** `linear_comb_m`: the same on the unmasked entries only. */
  method LinearCombM(x: seq<real>, y: array<real>, alfa: real, mask: seq<bool>)
    requires |x| == y.Length == |mask|
    modifies y
    ensures y[..] == TowardsM(x, old(y[..]), alfa, mask)
    ensures forall i :: 0 <= i < y.Length && mask[i] ==> y[i] == old(y[i])
  {
    var i := 0;
    while i < y.Length
      invariant 0 <= i <= y.Length
      invariant forall k :: 0 <= k < i ==> y[k] == if mask[k] then old(y[k]) else alfa * (x[k] - old(y[k])) + old(y[k])
      invariant forall k :: i <= k < y.Length ==> y[k] == old(y[k])
    {
      if !mask[i] {
        y[i] := alfa * (x[i] - y[i]) + y[i];
      }
      i := i + 1;
    }
    assert forall k :: 0 <= k < y.Length ==> y[..][k] == TowardsM(x, old(y[..]), alfa, mask)[k];
  }

  /** `nash_error`. */
  method NashError(x: seq<real>, Ax: seq<real>, xAx: real) returns (sum: real)
    requires |x| == |Ax|
    ensures sum == NashGap(x, Ax, xAx) && sum >= 0.0
  {
    sum := 0.0;
    var i := 0;
    while i < |x|
      invariant 0 <= i <= |x|
      invariant sum == NashGap(x[..i], Ax[..i], xAx)
    {
      assert x[..i + 1][..i] == x[..i] && Ax[..i + 1][..i] == Ax[..i];
      var tmp := xAx - Ax[i];
      if tmp > x[i] {
        tmp := x[i];
      }
      sum := sum + tmp * tmp;
      i := i + 1;
    }
    assert x[..i] == x && Ax[..i] == Ax;
    NashGapNonNegative(x, Ax, xAx);
  }

  /** `nash_error_m`. */
  method NashErrorM(x: seq<real>, Ax: seq<real>, xAx: real, mask: seq<bool>) returns (sum: real)
    requires |x| == |Ax| == |mask|
    ensures sum == NashGapM(x, Ax, xAx, mask) && sum >= 0.0
  {
    sum := 0.0;
    var i := 0;
    while i < |x|
      invariant 0 <= i <= |x|
      invariant sum == NashGapM(x[..i], Ax[..i], xAx, mask[..i])
    {
      assert x[..i + 1][..i] == x[..i] && Ax[..i + 1][..i] == Ax[..i];
      assert mask[..i + 1][..i] == mask[..i];
      if !mask[i] {
        var tmp := xAx - Ax[i];
        if tmp > x[i] {
          tmp := x[i];
        }
        sum := sum + tmp * tmp;
      }
      i := i + 1;
    }
    assert x[..i] == x && Ax[..i] == Ax && mask[..i] == mask;
    NashGapMNonNegative(x, Ax, xAx, mask);
  }

  /** The selection loop shared by `selectStrategy` and `selectStrategy_m`. */
  method ScanExtremes(Ax: seq<real>, x: seq<real>, mask: seq<bool>) returns (maxIdx: int, minIdx: int)
    requires |Ax| == |x| == |mask|
    ensures maxIdx == MaxPrefix(Ax, mask, |Ax|) && minIdx == MinPosPrefix(Ax, x, mask, |Ax|)
  {
    maxIdx, minIdx := -1, -1;
    var i := 0;
    while i < |Ax|
      invariant 0 <= i <= |Ax|
      invariant maxIdx == MaxPrefix(Ax, mask, i) && minIdx == MinPosPrefix(Ax, x, mask, i)
    {
      if !mask[i] {
        if maxIdx < 0 || Ax[i] > Ax[maxIdx] {
          maxIdx := i;
        }
        if x[i] > 0.0 && (minIdx < 0 || Ax[i] < Ax[minIdx]) {
          minIdx := i;
        }
      }
      i := i + 1;
    }
  }

  /** `selectStrategy`: picks the next pure strategy by `Choose` and returns
      the Nash error of the current population. */
  method SelectStrategy(Ax: seq<real>, x: seq<real>) returns (sel: Selection, error: real)
    requires |Ax| == |x|
    ensures sel == Choose(Ax, x, NoMask(|x|), InnerProduct(Ax, x))
    ensures error == NashGap(x, Ax, InnerProduct(Ax, x)) && error >= 0.0
  {
    var maxIdx, minIdx := ScanExtremes(Ax, x, NoMask(|x|));
    var xAx := Dot(Ax, x);
    if maxIdx < 0 {
      sel := NoStrategy;
    } else if minIdx >= 0 && Ax[maxIdx] - xAx < xAx - Ax[minIdx] {
      sel := Pick(minIdx, -(xAx - Ax[minIdx]));
    } else {
      sel := Pick(maxIdx, Ax[maxIdx] - xAx);
    }
    error := NashError(x, Ax, xAx);
  }

  /** `selectStrategy_m`: the same over the unmasked strategies, with the
      masked average payoff. */
  method SelectStrategyM(Ax: seq<real>, x: seq<real>, mask: seq<bool>) returns (sel: Selection, error: real)
    requires |Ax| == |x| == |mask|
    ensures sel == Choose(Ax, x, mask, InnerProductM(Ax, x, mask))
    ensures error == NashGapM(x, Ax, InnerProductM(Ax, x, mask), mask) && error >= 0.0
  {
    var maxIdx, minIdx := ScanExtremes(Ax, x, mask);
    var xAx := DotM(Ax, x, mask);
    if maxIdx < 0 {
      sel := NoStrategy;
    } else if minIdx >= 0 && Ax[maxIdx] - xAx < xAx - Ax[minIdx] {
      sel := Pick(minIdx, -(xAx - Ax[minIdx]));
    } else {
      sel := Pick(maxIdx, Ax[maxIdx] - xAx);
    }
    error := NashErrorM(x, Ax, xAx, mask);
  }

  // ---------------------------------------------------------------------
  // Dynamics

  /** Why a dynamics loop stopped.  `NonFinite` marks the point where the
      source divides by zero and continues with infinite or NaN entries. */
  datatype Stop = Converged | IterationCap | NonFinite

  /** `iidyn`: infection/immunization dynamics on the full strategy set.
      The run is the one `IidynOf` describes; with `A` symmetric it stops as
      converged only where the Nash error of the population against `A x`
      is below `toll²`. */
  method Iidyn(A: seq<real>, x: array<real>, n: nat, toll: real, maxIters: int)
    returns (niter: int, ghost stop: Stop)
    requires |A| == n * n && x.Length == n
    modifies x
    ensures 0 <= niter && (niter <= maxIters || niter == 0)
    ensures stop == IterationCap ==> niter >= maxIters
    ensures stop == Converged ==> niter < maxIters
    ensures var r := IidynOf(A, n, old(x[..]), toll, maxIters);
            x[..] == r.x && niter == r.niter && stop == r.stop
    ensures stop != NonFinite && n > 0 ==> IsSimplex(x[..])
    ensures Symmetric(A, n) && stop == Converged ==>
              NashGap(x[..], MatVec(A, x[..], n), InnerProduct(MatVec(A, x[..], n), x[..])) < toll * toll
  {
    ghost var x0 := x[..];
    ghost var whole := IidynOf(A, n, x0, toll, maxIters);
    var Ax := new real[n];
    var finite := Simplexify(x);
    Mult(A, x[..], n, Ax);
    var tol2 := toll * toll;
    niter := 0;
    stop := if finite then IterationCap else NonFinite;
    while finite && niter < maxIters
      invariant 0 <= niter && (niter <= maxIters || niter == 0)
      invariant Ax.Length == n && Ax != x
      invariant stop == (if finite then IterationCap else NonFinite)
      invariant finite ==> IidynLoop(A, n, x[..], Ax[..], tol2, niter, maxIters) == whole
      invariant !finite ==> whole == Run(x[..], Ax[..], niter, NonFinite)
      decreases maxIters - niter, finite
    {
      var err, next := NextStep(A, n, x[..], Ax[..]);
      if err < tol2 {
        IidynLoopHalts(A, n, x[..], Ax[..], tol2, niter, maxIters);
        stop := Converged;
        break;
      }
      if next.None? {
        IidynLoopStuck(A, n, x[..], Ax[..], tol2, niter, maxIters);
        finite := false;
        stop := NonFinite;
      } else {
        var (idx, step) := next.value;
        IidynLoopAdvance(A, n, x[..], Ax[..], tol2, niter, maxIters, idx, step);
        finite := Advanced(A, n, x, Ax, idx, step);
        niter := niter + 1;
        stop := if finite then IterationCap else NonFinite;
      }
    }
    IidynLoopHalts(A, n, x[..], Ax[..], tol2, niter, maxIters);
    assert whole == Run(x[..], Ax[..], niter, stop);
    IidynOfSound(A, n, x0, toll, maxIters);
  }

  /** The first half of an iteration of `iidyn`: the Nash error of `x`
      and, unless no step can be taken, the strategy chosen and the step
      towards it. */
  method NextStep(A: seq<real>, n: nat, x: seq<real>, Ax: seq<real>) returns (err: real, next: Option<(nat, Step)>)
    requires |A| == n * n && |x| == n && |Ax| == n
    ensures err == NashGap(x, Ax, InnerProduct(Ax, x)) && err >= 0.0
    ensures next == Advance(A, n, x, Ax)
  {
    var sel;
    sel, err := SelectStrategy(Ax, x);
    if sel.NoStrategy? {
      // The source indexes A at -(size + 1) here.
      next := None;
    } else {
      var idx, delta := sel.idx, sel.delta;
      var den := Diagonal(A, n, idx) - Ax[idx] - delta;
      var step := StepSize(delta, den, x[idx]);
      next := if step.None? then None else Some((idx, step.value));
    }
  }

  /** The body of one iteration of `iidyn` once the step is known: the
      population moves and is simplexified, and the payoff vector moves the
      same way towards row `idx` of `A`.  The result is false where the
      population's positive part sums to zero. */
  method Advanced(A: seq<real>, n: nat, x: array<real>, Ax: array<real>, idx: nat, st: Step) returns (finite: bool)
    requires |A| == n * n && x.Length == n && Ax.Length == n && x != Ax && idx < n
    modifies x, Ax
    ensures x[..] == Simplexified(Moved(old(x[..]), idx, st))
    ensures Ax[..] == Towards(Row(A, n, idx), old(Ax[..]), st.mu)
    ensures finite <==> Sum(Clamp(Moved(old(x[..]), idx, st))) != 0.0
  {
    Move(x, idx, st);
    finite := Simplexify(x);
    LinearComb(Row(A, n, idx), Ax, st.mu);
  }

  /** The update of one iteration of `iidyn`: every share scaled by
      `1 - mu`, then entry `idx` set to zero when the step removes it and
      raised by `mu` otherwise. */
  method Move(x: array<real>, idx: nat, st: Step)
    requires idx < x.Length
    modifies x
    ensures x[..] == Moved(old(x[..]), idx, st)
  {
    Scale(x, 1.0 - st.mu);
    x[idx] := if st.remove then 0.0 else x[idx] + st.mu;
  }

  /** The post-thresholding that ends `iidyn_m`: every entry becomes 1 when
      its payoff exceeds 0.8 times the masked average payoff and 0 otherwise.
      With a zero average the source divides by zero; IEEE division then
      gives +infinity exactly for positive payoffs, which the model states
      explicitly. */
  function Thresholded(Ax: seq<real>, xAx: real): (r: seq<real>)
    ensures |r| == |Ax|
  {
    seq(|Ax|, i requires 0 <= i < |Ax| =>
      if xAx != 0.0 then (if Ax[i] / xAx > 0.8 then 1.0 else 0.0)
      else (if Ax[i] > 0.0 then 1.0 else 0.0))
  }

  /** For a positive average payoff the rule selects exactly the strategies
      earning more than 0.8 of it. */
  lemma ThresholdedSupport(Ax: seq<real>, xAx: real, i: nat)
    requires i < |Ax| && xAx > 0.0
    ensures Thresholded(Ax, xAx)[i] == 1.0 <==> Ax[i] > 0.8 * xAx
    ensures Thresholded(Ax, xAx)[i] == 0.0 || Thresholded(Ax, xAx)[i] == 1.0
  {
    if Ax[i] > 0.8 * xAx {
      assert Ax[i] / xAx > 0.8;
    } else {
      assert Ax[i] / xAx <= 0.8;
    }
  }

  /** `iidyn_m` abstracted by its post-thresholding (iidyn.cpp:325-327): the
      masked dynamics leave the payoff vector `Ax` and population `x`; the
      population is then overwritten entry by entry. */
  method IidynMThreshold(Ax: seq<real>, x: array<real>, mask: seq<bool>)
    requires |Ax| == x.Length == |mask|
    modifies x
    ensures x[..] == Thresholded(Ax, InnerProductM(Ax, old(x[..]), mask))
    ensures forall i :: 0 <= i < x.Length ==> x[i] == 0.0 || x[i] == 1.0
  {
    var xAx := DotM(Ax, x[..], mask);
    var i := 0;
    while i < x.Length
      invariant 0 <= i <= x.Length
      invariant x[..i] == Thresholded(Ax, xAx)[..i]
    {
      x[i] := if xAx != 0.0 then (if Ax[i] / xAx > 0.8 then 1.0 else 0.0)
              else (if Ax[i] > 0.0 then 1.0 else 0.0);
      i := i + 1;
    }
  }

  /** `repdyn`: replicator dynamics.  The source loops until the Nash error
      drops below `toll²` with no iteration cap; `fuel` bounds the model's
      loop.  It stops as converged only where the Nash error of the
      population against `A x` is below `toll²`, and with a non-negative
      payoff matrix it stays on the simplex. */
  method Repdyn(A: seq<real>, x: array<real>, n: nat, toll: real, fuel: nat)
    returns (niter: nat, ghost stop: Stop)
    requires |A| == n * n && x.Length == n
    modifies x
    ensures niter <= fuel
    ensures stop == IterationCap ==> niter == fuel
    ensures stop != NonFinite && niter > 0 ==> Sum(x[..]) == 1.0
    ensures stop != NonFinite && n > 0 ==> Sum(x[..]) == 1.0
    ensures stop == Converged ==>
              NashGap(x[..], MatVec(A, x[..], n), InnerProduct(MatVec(A, x[..], n), x[..])) < toll * toll
    ensures NonNegative(A) && stop != NonFinite && n > 0 ==> IsSimplex(x[..])
  {
    var tol2 := toll * toll;
    var Ax := new real[n];
    niter := 0;
    var finite := Simplexify(x);
    if !finite {
      // `simplexify` divides by a zero sum: every entry is non-finite.
      stop := NonFinite;
      return;
    }
    stop := IterationCap;
    while niter < fuel
      invariant niter <= fuel && Ax.Length == n && Ax != x
      invariant stop == IterationCap
      invariant n > 0 ==> Sum(x[..]) == 1.0
      invariant niter > 0 ==> n > 0
      invariant NonNegative(A) ==> NonNegative(x[..])
    {
      ghost var xs := x[..];
      Mult(A, x[..], n, Ax);
      assert x[..] == xs && Ax[..] == MatVec(A, xs, n);
      var xAx := Dot(Ax[..], x[..]);
      var err := NashError(x[..], Ax[..], xAx);
      if err < tol2 {
        assert NashGap(xs, MatVec(A, xs, n), InnerProduct(MatVec(A, xs, n), xs)) < tol2;
        stop := Converged;
        return;
      }
      if xAx == 0.0 {
        // 1.0 / xAx is infinite in the source.
        stop := NonFinite;
        return;
      }
      ghost var before := x[..];
      MulScaled(Ax[..], x, 1.0 / xAx);
      ReplicatorStepSumsToOne(Ax[..], before, xAx);
      if NonNegative(A) {
        ReplicatorStepNonNegative(A, n, before);
      }
      niter := niter + 1;
    }
  }

  /** `set_m`: every unmasked entry set to `c`. */
  method SetM(x: array<real>, c: real, mask: seq<bool>)
    requires |mask| == x.Length
    modifies x
    ensures forall i :: 0 <= i < x.Length ==> x[i] == if mask[i] then old(x[i]) else c
  {
    var j := 0;
    while j < x.Length
      invariant 0 <= j <= x.Length
      invariant forall i :: 0 <= i < j ==> x[i] == if mask[i] then old(x[i]) else c
      invariant forall i :: j <= i < x.Length ==> x[i] == old(x[i])
    {
      if !mask[j] {
        x[j] := c;
      }
      j := j + 1;
    }
  }

  // ---------------------------------------------------------------------
  // Cluster extraction

  /** Number of unmasked entries. */
  function FreeCount(mask: seq<bool>): nat
  {
    if |mask| == 0 then 0
    else FreeCount(mask[..|mask| - 1]) + (if mask[|mask| - 1] then 0 else 1)
  }

  /** The mask after a clustering round: every unmasked strategy with a
      positive share in the round's population joins the cluster. */
  function Absorbed(mask: seq<bool>, x: seq<real>): (r: seq<bool>)
    requires |x| == |mask|
    ensures |r| == |mask|
  {
    seq(|mask|, i requires 0 <= i < |mask| => mask[i] || x[i] > 0.0)
  }

  /** The entries that do not join in a round: already masked or without a
      positive share. */
  function NotJoining(mask: seq<bool>, x: seq<real>): (r: seq<bool>)
    requires |x| == |mask|
    ensures |r| == |mask|
  {
    seq(|mask|, i requires 0 <= i < |mask| => mask[i] || !(x[i] > 0.0))
  }

  lemma {:induction false} FreeCountSet(s: seq<bool>, j: nat)
    requires j < |s| && !s[j]
    ensures FreeCount(s[j := true]) + 1 == FreeCount(s)
  {
    var k := |s| - 1;
    if j == k {
      assert s[j := true][..k] == s[..k];
    } else {
      assert s[j := true][..k] == s[..k][j := true];
      FreeCountSet(s[..k], j);
    }
  }

  /** A round never unmasks a strategy and never increases the number of
      unmasked strategies; the number stays the same exactly when no
      strategy joins. */
  lemma {:induction false} AbsorbedShrinksFree(mask: seq<bool>, x: seq<real>)
    requires |x| == |mask|
    ensures forall i :: 0 <= i < |mask| && mask[i] ==> Absorbed(mask, x)[i]
    ensures FreeCount(Absorbed(mask, x)) <= FreeCount(mask)
    ensures FreeCount(Absorbed(mask, x)) == FreeCount(mask) <==> Absorbed(mask, x) == mask
  {
    var k := |mask| - 1;
    if |mask| > 0 {
      assert Absorbed(mask, x)[..k] == Absorbed(mask[..k], x[..k]);
      AbsorbedShrinksFree(mask[..k], x[..k]);
      if Absorbed(mask, x) == mask {
        assert Absorbed(mask[..k], x[..k]) == mask[..k];
      }
      if Absorbed(mask[..k], x[..k]) == mask[..k] && Absorbed(mask, x)[k] == mask[k] {
        assert Absorbed(mask, x) == mask;
      }
    }
  }

  lemma {:induction false} FreeCountZero(mask: seq<bool>)
    ensures FreeCount(mask) == 0 <==> forall i :: 0 <= i < |mask| ==> mask[i]
  {
    if |mask| > 0 {
      FreeCountZero(mask[..|mask| - 1]);
    }
  }

  /** The representative of a round: the first strategy of largest share
      among those joining, or -1 when none joins. */
  lemma RepresentativeIsFirstLargest(mask: seq<bool>, x: seq<real>)
    requires |x| == |mask|
    ensures var r := MaxPrefix(x, NotJoining(mask, x), |x|);
            (r < 0 <==> Absorbed(mask, x) == mask)
            && (r >= 0 ==> !mask[r] && x[r] > 0.0 && IsFirstMax(x, NotJoining(mask, x), r))
  {
    MaxPrefixIsFirstMax(x, NotJoining(mask, x), |x|);
    var r := MaxPrefix(x, NotJoining(mask, x), |x|);
    if r < 0 {
      forall i | 0 <= i < |x| ensures Absorbed(mask, x)[i] == mask[i] {
        assert NotJoining(mask, x)[i];
      }
    } else {
      assert Absorbed(mask, x)[r] != mask[r];
    }
  }

  /** Round facts shared by both extractors: the round started from the
      uniform point on the unmasked strategies of `mask`, the masked dynamics
      returned `out`, and the round left the mask `next`. */
  ghost predicate RoundStep(mask: seq<bool>, start: seq<real>, out: seq<real>, next: seq<bool>,
                            size: nat, iidynM: (seq<real>, seq<bool>) -> seq<real>)
  {
    |mask| == |start| == |out| == size
    && 0 < FreeCount(mask)
    && (forall i :: 0 <= i < size && !mask[i] ==> start[i] == 1.0 / FreeCount(mask) as real)
    && out == iidynM(start, mask)
    && next == Absorbed(mask, out)
  }

  /** The inner loop of a `clustering` round: masks the joining strategies,
      counts down the unmasked ones and finds the representative. */
  method AbsorbRound(mk: array<bool>, x: seq<real>, n: nat) returns (n': nat, best: int)
    requires |x| == mk.Length && n == FreeCount(mk[..])
    modifies mk
    ensures mk[..] == Absorbed(old(mk[..]), x)
    ensures n' == FreeCount(mk[..])
    ensures best == MaxPrefix(x, NotJoining(old(mk[..]), x), |x|)
  {
    ghost var m0 := mk[..];
    n' := n;
    best := -1;
    var max := 0.0;
    var j := 0;
    while j < mk.Length
      invariant 0 <= j <= mk.Length
      invariant forall i :: 0 <= i < j ==> mk[i] == Absorbed(m0, x)[i]
      invariant forall i :: j <= i < mk.Length ==> mk[i] == m0[i]
      invariant n' == FreeCount(mk[..])
      invariant best == MaxPrefix(x, NotJoining(m0, x), j)
      invariant max == if best < 0 then 0.0 else x[best]
    {
      if !mk[j] && x[j] > 0.0 {
        ghost var before := mk[..];
        mk[j] := true;
        assert mk[..] == before[j := true];
        FreeCountSet(before, j);
        if x[j] > max {
          max := x[j];
          best := j;
        }
        n' := n' - 1;
      }
      j := j + 1;
    }
    assert mk[..] == Absorbed(m0, x);
  }

  lemma {:induction false} FreeCountNoMask(n: nat)
    ensures FreeCount(NoMask(n)) == n
  {
    if n > 0 {
      assert NoMask(n)[..n - 1] == NoMask(n - 1);
      FreeCountNoMask(n - 1);
    }
  }

  /** The inner loop of a `clustering_noreass` round: masks the joining
      strategies, labels them with `tag` and counts down the unmasked
      ones. */
  method LabelRound(mk: array<bool>, x: seq<real>, n: nat, clusters: array<int>, tag: int)
    returns (n': nat)
    requires |x| == mk.Length <= clusters.Length && n == FreeCount(mk[..])
    modifies mk, clusters
    ensures mk[..] == Absorbed(old(mk[..]), x)
    ensures n' == FreeCount(mk[..])
    ensures forall j :: 0 <= j < clusters.Length ==>
              clusters[j] == if j < mk.Length && !old(mk[j]) && x[j] > 0.0 then tag else old(clusters[j])
  {
    ghost var m0 := mk[..];
    n' := n;
    var j := 0;
    while j < mk.Length
      invariant 0 <= j <= mk.Length
      invariant forall i :: 0 <= i < j ==> mk[i] == Absorbed(m0, x)[i]
      invariant forall i :: j <= i < mk.Length ==> mk[i] == m0[i]
      invariant n' == FreeCount(mk[..])
      invariant forall i :: 0 <= i < clusters.Length ==>
                  clusters[i] == if i < j && !m0[i] && x[i] > 0.0 then tag else old(clusters[i])
    {
      if !mk[j] && x[j] > 0.0 {
        ghost var before := mk[..];
        mk[j] := true;
        assert mk[..] == before[j := true];
        FreeCountSet(before, j);
        clusters[j] := tag;
        n' := n' - 1;
      }
      j := j + 1;
    }
    assert mk[..] == Absorbed(m0, x);
  }

  /** Every strategy carries the round (from 1) whose mask first holds it,
      or 0 when the last mask does not hold it. */
  ghost predicate Labelled(c: seq<int>, masks: seq<seq<bool>>, size: nat)
  {
    |masks| > 0 && size <= |c| && (forall r :: 0 <= r < |masks| ==> |masks[r]| == size)
    && forall j :: 0 <= j < size ==>
         0 <= c[j] < |masks|
         && (c[j] == 0 <==> !masks[|masks| - 1][j])
         && (c[j] > 0 ==> !masks[c[j] - 1][j] && masks[c[j]][j])
  }

  lemma LabelledStep(c: seq<int>, masks: seq<seq<bool>>, size: nat, c': seq<int>, next: seq<bool>)
    requires Labelled(c, masks, size) && |next| == size && |c'| == |c|
    requires forall j :: 0 <= j < size && masks[|masks| - 1][j] ==> next[j]
    requires forall j :: 0 <= j < size ==>
               c'[j] == if !masks[|masks| - 1][j] && next[j] then |masks| else c[j]
    ensures Labelled(c', masks + [next], size)
  {
    var ms := masks + [next];
    forall j | 0 <= j < size
      ensures 0 <= c'[j] < |ms|
      ensures c'[j] == 0 <==> !ms[|ms| - 1][j]
      ensures c'[j] > 0 ==> !ms[c'[j] - 1][j] && ms[c'[j]][j]
    {
      if c[j] > 0 {
        assert ms[c[j] - 1] == masks[c[j] - 1] && ms[c[j]] == masks[c[j]];
      }
    }
  }

  /** The history of the rounds of a clustering run: it starts from the
      empty mask and every round is a `RoundStep`. */
  ghost predicate Rounds(masks: seq<seq<bool>>, starts: seq<seq<real>>, outs: seq<seq<real>>,
                         size: nat, iidynM: (seq<real>, seq<bool>) -> seq<real>)
  {
    |masks| == |starts| + 1 && |starts| == |outs| && masks[0] == NoMask(size)
    && (forall r :: 0 <= r < |masks| ==> |masks[r]| == size)
    && (forall r :: 0 <= r < |outs| ==> |outs[r]| == size)
    && forall r :: 0 <= r < |starts| ==>
         RoundStep(masks[r], starts[r], outs[r], masks[r + 1], size, iidynM)
  }

  lemma RoundsExtend(masks: seq<seq<bool>>, starts: seq<seq<real>>, outs: seq<seq<real>>,
                     size: nat, iidynM: (seq<real>, seq<bool>) -> seq<real>,
                     start: seq<real>, out: seq<real>, next: seq<bool>)
    requires Rounds(masks, starts, outs, size, iidynM)
    requires RoundStep(masks[|masks| - 1], start, out, next, size, iidynM)
    ensures Rounds(masks + [next], starts + [start], outs + [out], size, iidynM)
  {
    var ms, ss, os := masks + [next], starts + [start], outs + [out];
    forall r | 0 <= r < |ss|
      ensures RoundStep(ms[r], ss[r], os[r], ms[r + 1], size, iidynM)
    {
      if r < |starts| {
        assert ms[r] == masks[r] && ms[r + 1] == masks[r + 1];
      }
    }
  }

  /** One round of `clustering`: the masked dynamics from the uniform point
      on the unmasked strategies, then the joining strategies are masked and
      the representative found. */
  method ClusterRound(mk: array<bool>, x: array<real>, n: nat, iidynM: (seq<real>, seq<bool>) -> seq<real>)
    returns (n': nat, best: int, ghost start: seq<real>, ghost out: seq<real>)
    requires mk.Length == x.Length && mk != x as object && n == FreeCount(mk[..]) && n > 0
    requires forall v: seq<real>, m: seq<bool> :: |v| == x.Length && |m| == x.Length ==> |iidynM(v, m)| == x.Length
    modifies mk, x
    ensures RoundStep(old(mk[..]), start, out, mk[..], x.Length, iidynM)
    ensures n' == FreeCount(mk[..])
    ensures best == MaxPrefix(out, NotJoining(old(mk[..]), out), x.Length)
  {
    SetM(x, 1.0 / n as real, mk[..]);
    ghost var m0 := mk[..];
    start := x[..];
    var y := iidynM(x[..], mk[..]);
    out := y;
    forall t | 0 <= t < x.Length {
      x[t] := y[t];
    }
    assert mk[..] == m0;
    n', best := AbsorbRound(mk, y, n);
  }

  /** One round of `clustering`, recorded at the end of the history. */
  method RecordClusterRound(mk: array<bool>, x: array<real>, n: nat, iidynM: (seq<real>, seq<bool>) -> seq<real>,
                            ghost masks: seq<seq<bool>>, ghost starts: seq<seq<real>>, ghost outs: seq<seq<real>>)
    returns (n': nat, best: int, ghost masks': seq<seq<bool>>, ghost starts': seq<seq<real>>,
             ghost outs': seq<seq<real>>)
    requires mk.Length == x.Length && mk != x as object && n == FreeCount(mk[..]) && n > 0
    requires forall v: seq<real>, m: seq<bool> :: |v| == x.Length && |m| == x.Length ==> |iidynM(v, m)| == x.Length
    requires Rounds(masks, starts, outs, x.Length, iidynM) && masks[|masks| - 1] == mk[..]
    modifies mk, x
    ensures n' == FreeCount(mk[..]) && masks' == masks + [mk[..]]
    ensures Rounds(masks', starts', outs', x.Length, iidynM)
    ensures Representatives(masks', outs', x.Length) == Representatives(masks, outs, x.Length) + [best]
  {
    ghost var start, y;
    n', best, start, y := ClusterRound(mk, x, n, iidynM);
    ClusterStep(masks, starts, outs, x.Length, iidynM, start, y, mk[..], best);
    masks', starts', outs' := masks + [mk[..]], starts + [start], outs + [y];
  }

  /** `clustering`: repeatedly runs the masked dynamics from the uniform
      point on the unmasked strategies, masks every strategy the dynamics
      keep, and records the largest one, until `k` rounds ran or every
      strategy is masked.  `iidynM` stands for `iidyn_m` started from the
      given population and mask; `masks[r]` and `outs[r]` record round `r`. */
  method Clustering(clusters: array<int>, size: nat, k: int,
                    iidynM: (seq<real>, seq<bool>) -> seq<real>)
    returns (nClusters: int, ghost masks: seq<seq<bool>>, ghost starts: seq<seq<real>>,
             ghost outs: seq<seq<real>>)
    requires k <= clusters.Length
    requires forall v: seq<real>, m: seq<bool> :: |v| == size && |m| == size ==> |iidynM(v, m)| == size
    modifies clusters
    ensures 0 <= nClusters && (k <= 0 ==> nClusters == 0) && (k > 0 ==> nClusters <= k)
    ensures |masks| == nClusters + 1 && Rounds(masks, starts, outs, size, iidynM)
    ensures forall r :: 0 <= r < nClusters ==> clusters[r] == MaxPrefix(outs[r], NotJoining(masks[r], outs[r]), size)
    ensures nClusters < k ==> FreeCount(masks[nClusters]) == 0
    ensures forall r :: nClusters <= r < clusters.Length ==> clusters[r] == old(clusters[r])
  {
    var mk := new bool[size](i => false);
    var x := new real[size];
    nClusters := 0;
    var n: nat := size;
    masks, starts, outs := [mk[..]], [], [];
    assert forall t :: 0 <= t < size ==> mk[t] == false;
    assert mk[..] == NoMask(size);
    FreeCountNoMask(size);
    var i := 0;
    while i < k && n > 0
      invariant 0 <= i && (k > 0 ==> i <= k) && (k <= 0 ==> i == 0)
      invariant nClusters == i
      invariant x.Length == size && mk.Length == size
      invariant n == FreeCount(mk[..])
      invariant |masks| == i + 1 && masks[i] == mk[..]
      invariant Rounds(masks, starts, outs, size, iidynM)
      invariant clusters[..i] == Representatives(masks, outs, size)
      invariant forall r :: i <= r < clusters.Length ==> clusters[r] == old(clusters[r])
    {
      var best;
      n, best, masks, starts, outs := RecordClusterRound(mk, x, n, iidynM, masks, starts, outs);
      ghost var before := clusters[..];
      clusters[i] := best;
      assert clusters[..i + 1] == before[..i] + [best];
      nClusters := nClusters + 1;
      i := i + 1;
    }
    forall r | 0 <= r < nClusters
      ensures clusters[r] == MaxPrefix(outs[r], NotJoining(masks[r], outs[r]), size)
    {
      assert clusters[r] == clusters[..i][r];
    }
  }

  /** The representative of every recorded round. */
  ghost function Representatives(masks: seq<seq<bool>>, outs: seq<seq<real>>, size: nat): (reps: seq<int>)
    requires |outs| < |masks|
    requires forall r :: 0 <= r < |masks| ==> |masks[r]| == size
    requires forall r :: 0 <= r < |outs| ==> |outs[r]| == size
    ensures |reps| == |outs|
  {
    seq(|outs|, r requires 0 <= r < |outs| => MaxPrefix(outs[r], NotJoining(masks[r], outs[r]), size))
  }

  /** A `clustering` round extends the history and its representatives. */
  lemma ClusterStep(masks: seq<seq<bool>>, starts: seq<seq<real>>, outs: seq<seq<real>>,
                    size: nat, iidynM: (seq<real>, seq<bool>) -> seq<real>,
                    start: seq<real>, out: seq<real>, next: seq<bool>, best: int)
    requires Rounds(masks, starts, outs, size, iidynM)
    requires RoundStep(masks[|masks| - 1], start, out, next, size, iidynM)
    requires best == MaxPrefix(out, NotJoining(masks[|masks| - 1], out), size)
    ensures Rounds(masks + [next], starts + [start], outs + [out], size, iidynM)
    ensures Representatives(masks + [next], outs + [out], size) == Representatives(masks, outs, size) + [best]
  {
    RoundsExtend(masks, starts, outs, size, iidynM, start, out, next);
    var ms, os := masks + [next], outs + [out];
    assert forall r :: 0 <= r < |outs| ==> ms[r] == masks[r] && os[r] == outs[r];
  }

  /** One round of `clustering_noreass`. */
  method NoReassRound(mk: array<bool>, x: array<real>, n: nat, clusters: array<int>, tag: int,
                      iidynM: (seq<real>, seq<bool>) -> seq<real>)
    returns (n': nat, ghost start: seq<real>, ghost out: seq<real>)
    requires mk.Length == x.Length <= clusters.Length && n == FreeCount(mk[..]) && n > 0
    requires forall v: seq<real>, m: seq<bool> :: |v| == x.Length && |m| == x.Length ==> |iidynM(v, m)| == x.Length
    modifies mk, x, clusters
    ensures RoundStep(old(mk[..]), start, out, mk[..], x.Length, iidynM)
    ensures n' == FreeCount(mk[..])
    ensures clusters[..] == Relabel(old(clusters[..]), old(mk[..]), mk[..], tag)
  {
    SetM(x, 1.0 / n as real, mk[..]);
    ghost var m0 := mk[..];
    start := x[..];
    var y := iidynM(x[..], mk[..]);
    out := y;
    forall t | 0 <= t < x.Length {
      x[t] := y[t];
    }
    assert mk[..] == m0;
    ghost var c0 := clusters[..];
    n' := LabelRound(mk, y, n, clusters, tag);
    forall j | 0 <= j < clusters.Length
      ensures clusters[..][j] == Relabel(c0, m0, mk[..], tag)[j]
    {
      if j < mk.Length {
        assert mk[..][j] == Absorbed(m0, y)[j];
      }
    }
  }

  /** The labels after a round: `tag` on the entries the round masked. */
  function Relabel(c: seq<int>, before: seq<bool>, after: seq<bool>, tag: int): (r: seq<int>)
    requires |before| == |after| <= |c|
    ensures |r| == |c|
    ensures forall j :: 0 <= j < |before| && (before[j] || !after[j]) ==> r[j] == c[j]
    ensures forall j :: |before| <= j < |c| ==> r[j] == c[j]
  {
    seq(|c|, j requires 0 <= j < |c| => if j < |before| && !before[j] && after[j] then tag else c[j])
  }

  /** A `clustering_noreass` round extends the history and its labelling. */
  lemma NoReassStep(masks: seq<seq<bool>>, starts: seq<seq<real>>, outs: seq<seq<real>>,
                    size: nat, iidynM: (seq<real>, seq<bool>) -> seq<real>,
                    start: seq<real>, out: seq<real>, m0: seq<bool>, next: seq<bool>, c: seq<int>, c': seq<int>)
    requires Rounds(masks, starts, outs, size, iidynM) && Labelled(c, masks, size) && m0 == masks[|masks| - 1]
    requires RoundStep(m0, start, out, next, size, iidynM)
    requires c' == Relabel(c, m0, next, |masks|)
    ensures Rounds(masks + [next], starts + [start], outs + [out], size, iidynM)
    ensures Labelled(c', masks + [next], size)
  {
    assert forall j :: 0 <= j < size && m0[j] ==> next[j];
    LabelledStep(c, masks, size, c', next);
    RoundsExtend(masks, starts, outs, size, iidynM, start, out, next);
  }

  /** One round of `clustering_noreass`, recorded at the end of the history. */
  method RecordNoReassRound(mk: array<bool>, x: array<real>, n: nat, clusters: array<int>, tag: int,
                            iidynM: (seq<real>, seq<bool>) -> seq<real>,
                            ghost masks: seq<seq<bool>>, ghost starts: seq<seq<real>>, ghost outs: seq<seq<real>>)
    returns (n': nat, ghost masks': seq<seq<bool>>, ghost starts': seq<seq<real>>, ghost outs': seq<seq<real>>)
    requires mk.Length == x.Length <= clusters.Length && n == FreeCount(mk[..]) && n > 0
    requires forall v: seq<real>, m: seq<bool> :: |v| == x.Length && |m| == x.Length ==> |iidynM(v, m)| == x.Length
    requires Rounds(masks, starts, outs, x.Length, iidynM) && Labelled(clusters[..], masks, x.Length)
    requires masks[|masks| - 1] == mk[..] && tag == |masks|
    modifies mk, x, clusters
    ensures n' == FreeCount(mk[..]) && masks' == masks + [mk[..]]
    ensures Rounds(masks', starts', outs', x.Length, iidynM) && Labelled(clusters[..], masks', x.Length)
    ensures forall j :: x.Length <= j < clusters.Length ==> clusters[j] == old(clusters[j])
  {
    ghost var c0, m0 := clusters[..], mk[..];
    ghost var start, y;
    n', start, y := NoReassRound(mk, x, n, clusters, tag, iidynM);
    NoReassStep(masks, starts, outs, x.Length, iidynM, start, y, m0, mk[..], c0, clusters[..]);
    assert forall j :: x.Length <= j < clusters.Length ==> clusters[..][j] == c0[j];
    masks', starts', outs' := masks + [mk[..]], starts + [start], outs + [y];
  }

  /** Sets the first `size` labels to 0. */
  method ClearLabels(clusters: array<int>, size: nat)
    requires size <= clusters.Length
    modifies clusters
    ensures forall j :: 0 <= j < clusters.Length ==> clusters[j] == if j < size then 0 else old(clusters[j])
  {
    var i := 0;
    while i < size
      invariant 0 <= i <= size
      invariant forall j :: 0 <= j < clusters.Length ==> clusters[j] == if j < i then 0 else old(clusters[j])
    {
      clusters[i] := 0;
      i := i + 1;
    }
  }

  /** `clustering_noreass`: the same rounds, but every strategy is labelled
      with the round (counted from 1) that absorbed it, 0 if none did; the
      result is the number of rounds plus one. */
  method ClusteringNoReass(clusters: array<int>, size: nat, k: int,
                           iidynM: (seq<real>, seq<bool>) -> seq<real>)
    returns (labels: int, ghost masks: seq<seq<bool>>, ghost starts: seq<seq<real>>,
             ghost outs: seq<seq<real>>)
    requires size <= clusters.Length
    requires forall v: seq<real>, m: seq<bool> :: |v| == size && |m| == size ==> |iidynM(v, m)| == size
    modifies clusters
    ensures 1 <= labels && (k <= 0 ==> labels == 1) && (k > 0 ==> labels <= k + 1)
    ensures |masks| == labels && Rounds(masks, starts, outs, size, iidynM)
    ensures labels - 1 < k ==> FreeCount(masks[labels - 1]) == 0
    ensures Labelled(clusters[..], masks, size)
    ensures forall j :: size <= j < clusters.Length ==> clusters[j] == old(clusters[j])
  {
    ClearLabels(clusters, size);
    var mk := new bool[size](i => false);
    var x := new real[size];
    var nClusters := 0;
    assert Labelled(clusters[..], [mk[..]], size);
    var n: nat := size;
    masks, starts, outs := [mk[..]], [], [];
    assert forall t :: 0 <= t < size ==> mk[t] == false;
    assert mk[..] == NoMask(size);
    FreeCountNoMask(size);
    assert Rounds(masks, starts, outs, size, iidynM);
    var i := 0;
    while i < k && n > 0
      invariant 0 <= i && (k > 0 ==> i <= k) && (k <= 0 ==> i == 0)
      invariant nClusters == i
      invariant x.Length == size && mk.Length == size
      invariant n == FreeCount(mk[..])
      invariant |masks| == i + 1 && masks[i] == mk[..]
      invariant Rounds(masks, starts, outs, size, iidynM)
      invariant Labelled(clusters[..], masks, size)
      invariant forall j :: size <= j < clusters.Length ==> clusters[j] == old(clusters[j])
    {
      n, masks, starts, outs := RecordNoReassRound(mk, x, n, clusters, i + 1, iidynM, masks, starts, outs);
      nClusters := nClusters + 1;
      i := i + 1;
    }
    labels := nClusters + 1;
  }
}
