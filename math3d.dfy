/** The geometry kernel of cvlab (src/stereoviewer/cvlab/cvlab/math3d.h,
    math3d.cpp): 2-D and 3-D vectors, row-major matrices, rotation,
    normalisation, Euclid's GCD and the segment intersection test.
    `double` is `real`; `sqrt` is a parameter. */
module Math3D {
  import opened Wrappers
  import opened Arith

  datatype Vec2 = Vec2(x: real, y: real)

  datatype Vec3 = Vec3(x: real, y: real, z: real)

  const Origin := Vec3(0.0, 0.0, 0.0)

  function Add(p: Vec3, q: Vec3): Vec3
  {
    Vec3(p.x + q.x, p.y + q.y, p.z + q.z)
  }

  function Sub(p: Vec3, q: Vec3): Vec3
  {
    Vec3(p.x - q.x, p.y - q.y, p.z - q.z)
  }

  function Neg(p: Vec3): Vec3
  {
    Vec3(-p.x, -p.y, -p.z)
  }

  /** `p * s` (and `s * p`). */
  function Scale(p: Vec3, s: real): Vec3
  {
    Vec3(s * p.x, s * p.y, s * p.z)
  }

  /** `p / s`; a zero divisor gives infinities in the source. */
  function DivBy(p: Vec3, s: real): Vec3
    requires s != 0.0
  {
    Vec3(p.x / s, p.y / s, p.z / s)
  }

  /** Adding and subtracting the same vector cancel, and binary minus is
      adding the negation. */
  lemma AddSubInverse(p: Vec3, q: Vec3)
    ensures Sub(Add(p, q), q) == p
    ensures Add(Sub(p, q), q) == p
    ensures Sub(p, q) == Add(p, Neg(q))
    ensures Neg(Neg(p)) == p
  {
  }

  function Dot(v1: Vec3, v2: Vec3): real
  {
    (v1.x * v2.x) + (v1.y * v2.y) + (v1.z * v2.z)
  }

  lemma DotSymmetric(v1: Vec3, v2: Vec3)
    ensures Dot(v1, v2) == Dot(v2, v1)
  {
  }

  /** `a * a`, named so that facts about squares attach to one term. */
  function Sq(a: real): real
  {
    a * a
  }

  /** A vector's dot product with itself is its sum of squares: never
      negative, and zero exactly at the origin. */
  lemma DotSelfNonNegative(p: Vec3)
    ensures Dot(p, p) == Sq(p.x) + Sq(p.y) + Sq(p.z)
    ensures Dot(p, p) >= 0.0
    ensures Dot(p, p) == 0.0 <==> p == Origin
  {
    Square(p.x);
    Square(p.y);
    Square(p.z);
  }

  /** A nonzero vector has a positive squared length. */
  lemma DotPositive(v: Vec3)
    requires v != Origin
    ensures Dot(v, v) > 0.0
  {
    DotSelfNonNegative(v);
  }

  lemma Square(a: real)
    ensures Sq(a) >= 0.0
    ensures a != 0.0 ==> Sq(a) > 0.0
    ensures Sq(a) == 0.0 <==> a == 0.0
    ensures Sq(-a) == Sq(a)
  {
    SquareNonNegative(a);
    SquareZero(a);
    assert (-a) * (-a) == a * a;
  }

  lemma SquareNonNegative(a: real)
    ensures Sq(a) >= 0.0
  {
    if a < 0.0 {
      assert a * a > 0.0;
    }
  }

  lemma SquareZero(a: real)
    ensures Sq(a) == 0.0 ==> a == 0.0
  {
    if a != 0.0 {
      CancelQuotient(a, a);
    }
  }

  function Cross(v1: Vec3, v2: Vec3): Vec3
  {
    Vec3((v1.y * v2.z) - (v1.z * v2.y),
         (v1.z * v2.x) - (v1.x * v2.z),
         (v1.x * v2.y) - (v1.y * v2.x))
  }

  /** The cross product is orthogonal to both factors. */
  lemma CrossOrthogonal(v1: Vec3, v2: Vec3)
    ensures Dot(Cross(v1, v2), v1) == 0.0
    ensures Dot(Cross(v1, v2), v2) == 0.0
  {
  }

  /** Swapping the factors negates the cross product. */
  lemma CrossAntisymmetric(v1: Vec3, v2: Vec3)
    ensures Cross(v2, v1) == Neg(Cross(v1, v2))
  {
  }

  /** `squared_dist`: the squared length of the difference. */
  function SquaredDist(p1: Vec3, p2: Vec3): (d: real)
    ensures d >= 0.0
    ensures d == Dot(Sub(p1, p2), Sub(p1, p2))
  {
    DotSelfNonNegative(Sub(p1, p2));
    Sq(p1.x - p2.x) + Sq(p1.y - p2.y) + Sq(p1.z - p2.z)
  }

  lemma SquaredDistSymmetric(p1: Vec3, p2: Vec3)
    ensures SquaredDist(p1, p2) == SquaredDist(p2, p1)
  {
    Square(p1.x - p2.x);
    Square(p1.y - p2.y);
    Square(p1.z - p2.z);
    assert p2.x - p1.x == -(p1.x - p2.x);
    assert p2.y - p1.y == -(p1.y - p2.y);
    assert p2.z - p1.z == -(p1.z - p2.z);
  }

  lemma SquaredDistSelf(p: Vec3)
    ensures SquaredDist(p, p) == 0.0
  {
    assert Sub(p, p) == Origin;
  }

  /** Distinct points are a positive squared distance apart. */
  lemma SquaredDistPositive(p1: Vec3, p2: Vec3)
    requires p1 != p2
    ensures SquaredDist(p1, p2) > 0.0
  {
    SubNonZero(p1, p2);
    DotPositive(Sub(p1, p2));
  }

  lemma SubNonZero(p1: Vec3, p2: Vec3)
    requires p1 != p2
    ensures Sub(p1, p2) != Origin
  {
  }

  /** The 2-D `dot_product`. */
  function Dot2(v1: Vec2, v2: Vec2): real
  {
    (v1.x * v2.x) + (v1.y * v2.y)
  }

  lemma Dot2Symmetric(v1: Vec2, v2: Vec2)
    ensures Dot2(v1, v2) == Dot2(v2, v1)
  {
  }

  /** `magnitude`, with the square root as a parameter. */
  function Magnitude(p: Vec3, sqrt: real -> real): real
  {
    sqrt(Dot(p, p))
  }

  /** `normalize`: divide by the magnitude and return it; a zero magnitude
      makes the vector zero and returns 0. */
  method Normalize(p: Vec3, sqrt: real -> real) returns (q: Vec3, n: real)
    ensures sqrt(Dot(p, p)) == 0.0 ==> q == Origin && n == 0.0
    ensures sqrt(Dot(p, p)) != 0.0 ==> n == sqrt(Dot(p, p)) && q == DivBy(p, n)
  {
    n := Magnitude(p, sqrt);
    if n == 0.0 {
      q := Origin;
      return q, 0.0;
    }
    q := Vec3(p.x / n, p.y / n, p.z / n);
  }

  /** The normalised vector's squared length, scaled back by the squared
      divisor, is the original squared length. */
  lemma ScaledDot(p: Vec3, n: real)
    requires n != 0.0
    ensures Dot(DivBy(p, n), DivBy(p, n)) * Sq(n) == Dot(p, p)
  {
    var q := DivBy(p, n);
    QuotientTimes(p.x, n);
    QuotientTimes(p.y, n);
    QuotientTimes(p.z, n);
    ProductSquare(q.x, n);
    ProductSquare(q.y, n);
    ProductSquare(q.z, n);
    DotSelfNonNegative(p);
    DotSelfNonNegative(q);
    Distribute(Sq(q.x), Sq(q.y), Sq(q.z), Sq(n));
  }

  /** With a true square root (`n * n` is the squared length), a nonzero
      vector normalises to unit length. */
  lemma NormalizedIsUnit(p: Vec3, n: real)
    requires n != 0.0 && Sq(n) == Dot(p, p)
    ensures Dot(DivBy(p, n), DivBy(p, n)) == 1.0
  {
    ScaledDot(p, n);
    Square(n);
    CancelFactor(Dot(DivBy(p, n), DivBy(p, n)), Sq(n));
  }

  lemma QuotientTimes(a: real, n: real)
    requires n != 0.0
    ensures (a / n) * n == a
  {
  }

  lemma ProductSquare(q: real, n: real)
    ensures Sq(q * n) == Sq(q) * Sq(n)
  {
  }

  lemma Distribute(a: real, b: real, c: real, m: real)
    ensures a * m + b * m + c * m == (a + b + c) * m
  {
  }

  lemma CancelQuotient(x: real, m: real)
    requires m != 0.0
    ensures (x * m) / m == x
  {
  }

  lemma CancelFactor(x: real, m: real)
    requires m > 0.0 && x * m == m
    ensures x == 1.0
  {
    assert (x - 1.0) * m == 0.0;
  }

  /** The cell at `(row, col)` of row-major storage `w` cells wide. */
  function Cell(cells: seq<real>, w: nat, row: nat, col: nat): real
    requires Offset(w, row, col) < |cells|
  {
    cells[Offset(w, row, col)]
  }

  /** An `n`-by-`n` identity. */
  ghost predicate IsIdentity(cells: seq<real>, n: nat)
  {
    |cells| == n * n
    && forall a, b | 0 <= a < n && 0 <= b < n ::
         Offset(n, a, b) < |cells| && Cell(cells, n, a, b) == if a == b then 1.0 else 0.0
  }

  /** Overwriting one cell leaves every other cell as it was. */
  lemma SetCellKeepsOthers(cells: seq<real>, w: nat, row: nat, col: nat, v: real)
    requires col < w && Offset(w, row, col) < |cells|
    ensures forall a, b | 0 <= b < w && Offset(w, a, b) < |cells| ::
              Cell(cells[Offset(w, row, col) := v], w, a, b) == if a == row && b == col then v else Cell(cells, w, a, b)
  {
    forall a, b | 0 <= b < w && Offset(w, a, b) < |cells|
      ensures Cell(cells[Offset(w, row, col) := v], w, a, b) == if a == row && b == col then v else Cell(cells, w, a, b)
    {
      if Offset(w, a, b) == Offset(w, row, col) {
        OffsetInjective(w, a, b, row, col);
      }
    }
  }

  /** Two blocks of the same shape with the same cells are equal. */
  lemma CellsEqual(c1: seq<real>, c2: seq<real>, w: nat, h: nat)
    requires |c1| == w * h && |c2| == w * h
    requires forall a, b | 0 <= a < h && 0 <= b < w ::
               Offset(w, a, b) < w * h && Cell(c1, w, a, b) == Cell(c2, w, a, b)
    ensures c1 == c2
  {
    forall k | 0 <= k < |c1| ensures c1[k] == c2[k] {
      OffsetOnto(w, h, k);
      assert Cell(c1, w, k / w, k % w) == Cell(c2, w, k / w, k % w);
    }
  }

  /** A `matrix<double>`: `width` columns, `height` rows, cells row by row. */
  class Matrix {
    var width: nat
    var height: nat
    var cells: seq<real>

    ghost predicate Valid()
      reads this
    {
      |cells| == width * height
    }

    /** `matrix(w, h)`: `w*h` zero cells. */
    constructor(w: nat, h: nat)
      ensures Valid() && width == w && height == h
      ensures forall k | 0 <= k < |cells| :: cells[k] == 0.0
    {
      width := w;
      height := h;
      cells := seq(w * h, _ => 0.0);
    }

    /** `operator()(row, col)`: no range check. */
    function Get(row: nat, col: nat): real
      reads this
      requires Offset(width, row, col) < |cells|
    {
      Cell(cells, width, row, col)
    }

    /** `at(row, col)`: `out_of_range` past the end of the storage. */
    function At(row: nat, col: nat): (r: Result<real>)
      reads this
      ensures r.Ok? <==> Offset(width, row, col) < |cells|
      ensures r.Ok? ==> r.value == Cell(cells, width, row, col)
      ensures r.Fail? ==> r.error == OutOfRange
    {
      if Offset(width, row, col) < |cells| then Ok(Cell(cells, width, row, col)) else Fail(OutOfRange)
    }

    /** Assignment through `operator()`. */
    method Set(row: nat, col: nat, v: real)
      requires Offset(width, row, col) < |cells|
      modifies this
      ensures width == old(width) && height == old(height)
      ensures cells == old(cells)[Offset(width, row, col) := v]
    {
      cells := cells[Offset(width, row, col) := v];
    }

    /** `identity`: `runtime_error` for a non-square matrix, which is left
        as it was; otherwise ones on the diagonal and zeros elsewhere. */
    method Identity() returns (st: Status)
      requires Valid()
      modifies this
      ensures Valid() && width == old(width) && height == old(height)
      ensures old(width) != old(height) ==> st == Raised(RuntimeError) && cells == old(cells)
      ensures old(width) == old(height) ==> st == Done && IsIdentity(cells, width)
    {
      if width != height {
        return Raised(RuntimeError);
      }
      var n := width;
      cells := seq(|cells|, _ => 0.0);
      OffsetsBound(n, n);
      var i := 0;
      while i < n
        invariant 0 <= i <= n && width == n && height == n && |cells| == n * n
        invariant forall a, b | 0 <= a < n && 0 <= b < n ::
                    Offset(n, a, b) < |cells| && Cell(cells, n, a, b) == if a == b && a < i then 1.0 else 0.0
      {
        OffsetBound(n, n, i, i);
        SetCellKeepsOthers(cells, n, i, i, 1.0);
        Set(i, i, 1.0);
        i := i + 1;
      }
      st := Done;
    }
  }

  /** `transpose`, looping over rows then columns of `m`: the result is
      `height`-by-... wide with `r(j, i) = m(i, j)`. */
  method Transpose(m: Matrix) returns (r: Matrix)
    requires m.Valid()
    ensures fresh(r) && r.Valid()
    ensures r.width == m.height && r.height == m.width
    ensures forall i, j | 0 <= i < m.height && 0 <= j < m.width ::
              Offset(m.width, i, j) < |m.cells| && Offset(r.width, j, i) < |r.cells|
              && Cell(r.cells, r.width, j, i) == Cell(m.cells, m.width, i, j)
  {
    r := new Matrix(m.height, m.width);
    OffsetsBound(m.width, m.height);
    OffsetsBound(r.width, r.height);
    var i := 0;
    while i < m.height
      invariant 0 <= i <= m.height && r.Valid() && r.width == m.height && r.height == m.width
      invariant forall a, b | 0 <= a < i && 0 <= b < m.width ::
                  Offset(m.width, a, b) < |m.cells| && Offset(r.width, b, a) < |r.cells|
                  && Cell(r.cells, r.width, b, a) == Cell(m.cells, m.width, a, b)
    {
      TransposeRow(m, r, i);
      i := i + 1;
    }
  }

  /** The inner loop of `transpose`: column `i` of `r` from row `i` of `m`. */
  method TransposeRow(m: Matrix, r: Matrix, i: nat)
    requires m.Valid() && r.Valid() && m != r
    requires r.width == m.height && r.height == m.width && i < m.height
    modifies r
    ensures r.Valid() && r.width == old(r.width) && r.height == old(r.height)
    ensures forall a, b | 0 <= a <= i && 0 <= b < m.width ::
              Offset(m.width, a, b) < |m.cells| && Offset(r.width, b, a) < |r.cells|
              && (a < i ==> Cell(r.cells, r.width, b, a) == old(Cell(r.cells, r.width, b, a)))
              && (a == i ==> Cell(r.cells, r.width, b, a) == Cell(m.cells, m.width, a, b))
  {
    OffsetsBound(m.width, m.height);
    OffsetsBound(r.width, r.height);
    var j := 0;
    while j < m.width
      invariant 0 <= j <= m.width && r.Valid() && r.width == m.height && r.height == m.width
      invariant forall a, b | 0 <= a <= i && 0 <= b < m.width ::
                  Offset(m.width, a, b) < |m.cells| && Offset(r.width, b, a) < |r.cells|
                  && (a < i || j <= b ==> Cell(r.cells, r.width, b, a) == old(Cell(r.cells, r.width, b, a)))
                  && (a == i && b < j ==> Cell(r.cells, r.width, b, a) == Cell(m.cells, m.width, a, b))
    {
      OffsetBound(m.width, m.height, i, j);
      OffsetBound(r.width, r.height, j, i);
      SetCellKeepsOthers(r.cells, r.width, j, i, m.Get(i, j));
      r.Set(j, i, m.Get(i, j));
      j := j + 1;
    }
  }

  /** The loop bounds of `transpose` as written: `i` runs over the width
      and `j` over the height while `m(i, j)` and `r(j, i)` treat them as
      row and column.  Every access is in range only for a square or empty
      matrix. */
  predicate TransposeAsWrittenInBounds(w: nat, h: nat)
  {
    forall i, j | 0 <= i < w && 0 <= j < h :: Offset(w, i, j) < w * h && Offset(h, j, i) < w * h
  }

  lemma SquareInBounds(n: nat)
    ensures TransposeAsWrittenInBounds(n, n)
  {
    forall i, j | 0 <= i < n && 0 <= j < n ensures Offset(n, i, j) < n * n && Offset(n, j, i) < n * n {
      OffsetBound(n, n, i, j);
      OffsetBound(n, n, j, i);
    }
  }

  /** A 1-row, 2-column matrix: `transpose` reads `m(1, 0)`, cell 2 of 2. */
  lemma TransposeAsWrittenOutOfRange()
    ensures !TransposeAsWrittenInBounds(2, 1)
  {
    assert Offset(2, 1, 0) == 2;
  }

  /** `transpose` as written, for the matrices on which it stays in range. */
  method TransposeAsWritten(m: Matrix) returns (r: Matrix)
    requires m.Valid() && m.width == m.height
    ensures fresh(r) && r.Valid()
    ensures r.width == m.height && r.height == m.width
    ensures forall i, j | 0 <= i < m.width && 0 <= j < m.height ::
              Offset(m.width, i, j) < |m.cells| && Offset(r.width, j, i) < |r.cells|
              && Cell(r.cells, r.width, j, i) == Cell(m.cells, m.width, i, j)
  {
    r := new Matrix(m.height, m.width);
    OffsetsBound(m.width, m.height);
    OffsetsBound(r.width, r.height);
    var i := 0;
    while i < m.width
      invariant 0 <= i <= m.width && r.Valid() && r.width == m.height && r.height == m.width
      invariant forall a, b | 0 <= a < i && 0 <= b < m.height ::
                  Offset(m.width, a, b) < |m.cells| && Offset(r.width, b, a) < |r.cells|
                  && Cell(r.cells, r.width, b, a) == Cell(m.cells, m.width, a, b)
    {
      TransposeRow(m, r, i);
      i := i + 1;
    }
  }

  /** Transposing twice gives back the matrix, for any shape. */
  method TransposeTwice(m: Matrix) returns (r: Matrix)
    requires m.Valid()
    ensures r.Valid() && r.width == m.width && r.height == m.height && r.cells == m.cells
  {
    var t := Transpose(m);
    r := Transpose(t);
    forall a, b | 0 <= a < m.height && 0 <= b < m.width
      ensures Offset(m.width, a, b) < m.width * m.height
              && Cell(r.cells, m.width, a, b) == Cell(m.cells, m.width, a, b)
    {
      OffsetBound(m.width, m.height, a, b);
    }
    CellsEqual(r.cells, m.cells, m.width, m.height);
  }

  /** `rot * p` for the top-left 3-by-3 block of `rot`. */
  function RotatedBy(p: Vec3, cells: seq<real>, w: nat): Vec3
    requires Offset(w, 2, 2) < |cells|
  {
    Vec3(p.x * Cell(cells, w, 0, 0) + p.y * Cell(cells, w, 0, 1) + p.z * Cell(cells, w, 0, 2),
         p.x * Cell(cells, w, 1, 0) + p.y * Cell(cells, w, 1, 1) + p.z * Cell(cells, w, 1, 2),
         p.x * Cell(cells, w, 2, 0) + p.y * Cell(cells, w, 2, 1) + p.z * Cell(cells, w, 2, 2))
  }

  /** `rotate`: replace `p` by `rot * p`, reading `rot(0..2, 0..2)`. */
  method Rotate(p: Vec3, rot: Matrix) returns (q: Vec3)
    requires Offset(rot.width, 2, 2) < |rot.cells|
    ensures q == RotatedBy(p, rot.cells, rot.width)
  {
    var oldx, oldy, oldz := p.x, p.y, p.z;
    q := Vec3(oldx * rot.Get(0, 0) + oldy * rot.Get(0, 1) + oldz * rot.Get(0, 2),
              oldx * rot.Get(1, 0) + oldy * rot.Get(1, 1) + oldz * rot.Get(1, 2),
              oldx * rot.Get(2, 0) + oldy * rot.Get(2, 1) + oldz * rot.Get(2, 2));
  }

  /** `rotate_translate`: rotate, then add the translation. */
  method RotateTranslate(p: Vec3, rot: Matrix, trans: Vec3) returns (q: Vec3)
    requires Offset(rot.width, 2, 2) < |rot.cells|
    ensures q == Add(RotatedBy(p, rot.cells, rot.width), trans)
  {
    q := Rotate(p, rot);
    q := Add(q, trans);
  }

  /** The 3-by-3 identity rotates nothing. */
  lemma RotateByIdentity(p: Vec3, cells: seq<real>)
    requires IsIdentity(cells, 3)
    ensures Offset(3, 2, 2) < |cells| && RotatedBy(p, cells, 3) == p
  {
    assert Offset(3, 2, 2) == 8;
    assert Cell(cells, 3, 0, 0) == 1.0 && Cell(cells, 3, 0, 1) == 0.0 && Cell(cells, 3, 0, 2) == 0.0;
    assert Cell(cells, 3, 1, 0) == 0.0 && Cell(cells, 3, 1, 1) == 1.0 && Cell(cells, 3, 1, 2) == 0.0;
    assert Cell(cells, 3, 2, 0) == 0.0 && Cell(cells, 3, 2, 1) == 0.0 && Cell(cells, 3, 2, 2) == 1.0;
  }

  /** C's `%`: the remainder takes the sign of the dividend. */
  function CRem(a: int, b: int): (r: int)
    requires b != 0
    ensures Abs(r) < Abs(b)
    ensures a >= 0 ==> r >= 0
    ensures a < 0 ==> r <= 0
  {
    if a >= 0 then a % Abs(b) else -((-a) % Abs(b))
  }

  function Abs(a: int): nat
  {
    if a < 0 then -a else a
  }

  /** The C quotient that goes with `CRem`. */
  lemma CDivision(a: int, b: int) returns (q: int)
    requires b != 0
    ensures a == q * b + CRem(a, b)
  {
    var m := Abs(b);
    if a >= 0 {
      q := if b > 0 then a / m else -(a / m);
      assert a == (a / m) * m + a % m;
    } else {
      q := if b > 0 then -((-a) / m) else (-a) / m;
      assert -a == ((-a) / m) * m + (-a) % m;
    }
  }

  /** Euclid's algorithm on C ints. */
  function GCD(a: int, b: int): int
    decreases Abs(b)
  {
    if b == 0 then a else GCD(b, CRem(a, b))
  }

  ghost predicate Divides(d: int, x: int)
  {
    exists k :: k * d == x
  }

  /** `GCD(a, b)` divides both arguments (0 divides only 0). */
  lemma {:induction false} GCDDividesBoth(a: int, b: int)
    ensures Divides(GCD(a, b), a) && Divides(GCD(a, b), b)
    decreases Abs(b)
  {
    if b == 0 {
      assert 1 * a == a && 0 * a == 0;
    } else {
      var g, r := GCD(b, CRem(a, b)), CRem(a, b);
      GCDDividesBoth(b, r);
      var q := CDivision(a, b);
      var kb :| kb * g == b;
      var kr :| kr * g == r;
      Combine(q, kb, kr, g);
    }
  }

  lemma Combine(q: int, k1: int, k2: int, g: int)
    ensures (q * k1 + k2) * g == q * (k1 * g) + k2 * g
  {
  }

  /** ... and every common divisor divides it: it is a greatest one. */
  lemma {:induction false} CommonDivisorDividesGCD(a: int, b: int, d: int)
    requires Divides(d, a) && Divides(d, b)
    ensures Divides(d, GCD(a, b))
    decreases Abs(b)
  {
    if b != 0 {
      var r := CRem(a, b);
      var q := CDivision(a, b);
      var ka :| ka * d == a;
      var kb :| kb * d == b;
      RemainderMultiple(a, b, q, r, d, ka, kb);
      CommonDivisorDividesGCD(b, r, d);
    }
  }

  /** A common divisor of `a` and `b` divides `a - q * b`. */
  lemma RemainderMultiple(a: int, b: int, q: int, r: int, d: int, ka: int, kb: int)
    requires a == q * b + r && ka * d == a && kb * d == b
    ensures (ka - q * kb) * d == r
  {
    Combine(-q, kb, ka, d);
  }

  /** `LCM(a, b) = a * (b / GCD(a, b))`; `LCM(0, 0)` would divide by
      zero. */
  function LCM(a: int, b: int): int
    requires a != 0 || b != 0
  {
    GCDNonZero(a, b);
    a * CDiv(b, GCD(a, b))
  }

  /** C's `/`, truncating toward zero. */
  function CDiv(a: int, b: int): int
    requires b != 0
  {
    if (a >= 0) == (b > 0) then Abs(a) / Abs(b) else -(Abs(a) / Abs(b))
  }

  /** The GCD is zero only for two zero arguments. */
  lemma {:induction false} GCDNonZero(a: int, b: int)
    ensures GCD(a, b) == 0 <==> a == 0 && b == 0
    decreases Abs(b)
  {
    if b != 0 {
      GCDNonZero(b, CRem(a, b));
    }
  }

  /** An exact division truncates nothing. */
  lemma CDivExact(b: int, g: int, k: int)
    requires g != 0 && k * g == b
    ensures CDiv(b, g) * g == b
  {
    var m := Abs(g);
    if (b >= 0) == (g > 0) {
      assert Abs(b) == Abs(k) * m;
      DivModUnique(Abs(b), m, Abs(k), 0);
    } else {
      assert Abs(b) == Abs(k) * m;
      DivModUnique(Abs(b), m, Abs(k), 0);
    }
  }

  /** The LCM is a common multiple of both arguments. */
  lemma LCMCommonMultiple(a: int, b: int)
    requires a != 0 || b != 0
    ensures Divides(a, LCM(a, b)) && Divides(b, LCM(a, b))
  {
    var g := GCD(a, b);
    GCDNonZero(a, b);
    GCDDividesBoth(a, b);
    var ka :| ka * g == a;
    var kb :| kb * g == b;
    CDivExact(b, g, kb);
    var c := CDiv(b, g);
    assert c * a == LCM(a, b);
    Regroup(ka, g, c);
  }

  lemma Regroup(x: int, y: int, z: int)
    ensures (x * y) * z == x * (z * y)
  {
  }

  /** `IntersectSegments`: the crossing of the lines through `p1 p2` and
      `p3 p4`, or the sentinel `(-1, -1)` for parallel lines and for a
      crossing whose x lies outside either segment's x-range. */
  function IntersectSegments(p1: Vec2, p2: Vec2, p3: Vec2, p4: Vec2): (r: Vec2)
    ensures (p1.x - p2.x) * (p3.y - p4.y) - (p1.y - p2.y) * (p3.x - p4.x) == 0.0 ==> r == Vec2(-1.0, -1.0)
    ensures r != Vec2(-1.0, -1.0) ==>
              Min(p1.x, p2.x) <= r.x <= Max(p1.x, p2.x) && Min(p3.x, p4.x) <= r.x <= Max(p3.x, p4.x)
  {
    var x1, y1, x2, y2 := p1.x, p1.y, p2.x, p2.y;
    var x3, y3, x4, y4 := p3.x, p3.y, p4.x, p4.y;
    var d := (x1 - x2) * (y3 - y4) - (y1 - y2) * (x3 - x4);
    if d == 0.0 then Vec2(-1.0, -1.0)
    else
      var xi := ((x3 - x4) * (x1 * y2 - y1 * x2) - (x1 - x2) * (x3 * y4 - y3 * x4)) / d;
      var yi := ((y3 - y4) * (x1 * y2 - y1 * x2) - (y1 - y2) * (x3 * y4 - y3 * x4)) / d;
      if xi < Min(x1, x2) || xi > Max(x1, x2) then Vec2(-1.0, -1.0)
      else if xi < Min(x3, x4) || xi > Max(x3, x4) then Vec2(-1.0, -1.0)
      else Vec2(xi, yi)
  }

  function Min(a: real, b: real): real
  {
    if a <= b then a else b
  }

  function Max(a: real, b: real): real
  {
    if a >= b then a else b
  }
}
