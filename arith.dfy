/** Integer facts shared by the modules that index row-major storage or
    count in blocks. */
module Arith {

  lemma MulAtLeast(k: int, e: int)
    requires k >= 1 && e >= 0
    ensures k * e >= e
  {
    var d := k - 1;
    assert k * e == d * e + e;
    assert d * e >= 0;
  }

  /** Quotient and remainder are the unique such pair. */
  lemma DivModUnique(a: int, e: int, q: int, r: int)
    requires e > 0 && 0 <= r < e && a == q * e + r
    ensures a / e == q && a % e == r
  {
    var q', r' := a / e, a % e;
    assert a == q' * e + r';
    assert (q - q') * e == r' - r;
    if q' < q {
      assert (q - q') * e >= e by { MulAtLeast(q - q', e); }
    } else if q < q' {
      assert (q' - q) * e >= e by { MulAtLeast(q' - q, e); }
    }
  }

  /** The row-major offset of `(row, col)` in storage `w` cells wide. */
  function Offset(w: nat, row: nat, col: nat): nat
  {
    row * w + col
  }

  /** Inside an `h`-by-`w` block every offset is in range. */
  lemma OffsetBound(w: nat, h: nat, row: nat, col: nat)
    requires row < h && col < w
    ensures Offset(w, row, col) < w * h
  {
    assert row * w + col < row * w + w == (row + 1) * w;
    assert (row + 1) * w <= h * w by { MulMonotone(row + 1, h, w); }
  }

  /** Every cell of an `h`-by-`w` block has an offset in range. */
  lemma OffsetsBound(w: nat, h: nat)
    ensures forall a, b | 0 <= a < h && 0 <= b < w :: Offset(w, a, b) < w * h
  {
    forall a, b | 0 <= a < h && 0 <= b < w ensures Offset(w, a, b) < w * h {
      OffsetBound(w, h, a, b);
    }
  }

  lemma MulMonotone(a: nat, b: nat, c: nat)
    requires a <= b
    ensures a * c <= b * c
  {
  }

  /** Row and column are recovered from the offset. */
  lemma OffsetInverse(w: nat, row: nat, col: nat)
    requires col < w
    ensures Offset(w, row, col) / w == row && Offset(w, row, col) % w == col
  {
    DivModUnique(Offset(w, row, col), w, row, col);
  }

  /** Distinct cells have distinct offsets. */
  lemma OffsetInjective(w: nat, r1: nat, c1: nat, r2: nat, c2: nat)
    requires c1 < w && c2 < w
    requires Offset(w, r1, c1) == Offset(w, r2, c2)
    ensures r1 == r2 && c1 == c2
  {
    OffsetInverse(w, r1, c1);
    OffsetInverse(w, r2, c2);
  }

  /** Every offset inside an `h`-by-`w` block is the offset of a cell. */
  lemma OffsetOnto(w: nat, h: nat, k: nat)
    requires k < w * h
    ensures w > 0 && k / w < h && k % w < w && Offset(w, k / w, k % w) == k
  {
    assert w > 0;
  }
}
