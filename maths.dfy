/** The numeric helpers of the prelude (src/stereoviewer/prelude/maths.h):
    range tests, rounding, clamps and linear (re)projections.  The C++
    templates are instantiated at `real`, standing for `double`. */
module Maths {

  /** `is_within`: both ends inclusive. */
  predicate IsWithin(x: real, a: real, b: real)
  {
    x >= a && x <= b
  }

  /** `is_about`: `x` lies in the closed `epsilon`-neighbourhood of `p`. */
  predicate IsAbout(x: real, p: real, epsilon: real)
  {
    IsWithin(x, p - epsilon, p + epsilon)
  }

  function Abs(x: real): real
  {
    if x < 0.0 then -x else x
  }

  /** `is_about` is a distance test. */
  lemma IsAboutDistance(x: real, p: real, epsilon: real)
    ensures IsAbout(x, p, epsilon) <==> Abs(x - p) <= epsilon
  {
  }

  function Floor(x: real): (f: int)
    ensures f as real <= x < f as real + 1.0
  {
    x.Floor
  }

  function Ceil(x: real): (c: int)
    ensures c as real - 1.0 < x <= c as real
  {
    if x == Floor(x) as real then Floor(x) else Floor(x) + 1
  }

  /** `round`: the ceiling only when the fractional part exceeds one half,
      so halves round down; the result is the integer nearest to `x`. */
  function Round(x: real): (r: real)
    ensures r == Floor(x) as real || r == Floor(x) as real + 1.0
    ensures Abs(r - x) <= 0.5
    ensures x - Floor(x) as real <= 0.5 ==> r == Floor(x) as real
    ensures x - Floor(x) as real > 0.5 ==> r == Ceil(x) as real
  {
    if x - Floor(x) as real > 0.5 then Ceil(x) as real else Floor(x) as real
  }

  /** Halves go down: `round(n + 1/2) = n`. */
  lemma RoundHalfDown(n: int)
    ensures Round(n as real + 0.5) == n as real
  {
    assert Floor(n as real + 0.5) == n;
  }

  /** `crop`: `a` below the range, `b` above it, `x` inside. */
  function Crop(x: real, a: real, b: real): (r: real)
    ensures a <= b ==> a <= r <= b
    ensures IsWithin(x, a, b) ==> r == x
    ensures x < a ==> r == a
    ensures a <= x && x > b ==> r == b
  {
    if x < a then a else if x > b then b else x
  }

  /** Cropping twice is cropping once. */
  lemma CropIdempotent(x: real, a: real, b: real)
    requires a <= b
    ensures Crop(Crop(x, a, b), a, b) == Crop(x, a, b)
  {
  }

  /** `upcrop`: the smaller of `x` and `top`. */
  function UpCrop(x: real, top: real): (r: real)
    ensures r <= x && r <= top
    ensures r == x || r == top
  {
    if x < top then x else top
  }

  /** `downcrop`: the larger of `x` and `bottom`. */
  function DownCrop(x: real, bottom: real): (r: real)
    ensures r >= x && r >= bottom
    ensures r == x || r == bottom
  {
    if x > bottom then x else bottom
  }

  /** `crop` is an upcrop after a downcrop whenever the range is not empty. */
  lemma CropIsClamp(x: real, a: real, b: real)
    requires a <= b
    ensures Crop(x, a, b) == UpCrop(DownCrop(x, a), b)
  {
  }

  /** `linear_proj`: the point at parameter `x` on the way from `a` to `b`. */
  function LinearProj(a: real, b: real, x: real): (r: real)
    ensures x == 0.0 ==> r == a
    ensures x == 1.0 ==> r == b
  {
    a + (b - a) * x
  }

  /** `reproj`: the affine map sending `x0` to `y0` and `x1` to `y1`. */
  function Reproj(x: real, x0: real, x1: real, y0: real, y1: real): (r: real)
    requires x1 != x0
    ensures x == x0 ==> r == y0
    ensures x == x1 ==> r == y1
  {
    CancelDivision(x1 - x0, y1 - y0);
    y0 + (x - x0) * (y1 - y0) / (x1 - x0)
  }

  lemma CancelDivision(a: real, b: real)
    requires a != 0.0
    ensures a * b / a == b
  {
  }

  /** `reproj` is `linear_proj` at the relative position of `x`. */
  lemma ReprojIsLinearProj(x: real, x0: real, x1: real, y0: real, y1: real)
    requires x1 != x0
    ensures Reproj(x, x0, x1, y0, y1) == LinearProj(y0, y1, (x - x0) / (x1 - x0))
  {
    assert (x - x0) * (y1 - y0) / (x1 - x0) == (y1 - y0) * ((x - x0) / (x1 - x0));
  }

  /** `reproj_omo`: the identity when source and target ranges coincide. */
  function ReprojOmo(x: real, x0: real, x1: real, y0: real, y1: real): (r: real)
    requires (x0 == y0 && x1 == y1) || x1 != x0
    ensures x0 == y0 && x1 == y1 ==> r == x
    ensures x1 != x0 ==> r == Reproj(x, x0, x1, y0, y1)
  {
    if x0 == y0 && x1 == y1 then ReprojIdentity(x, x0, x1); x else Reproj(x, x0, x1, y0, y1)
  }

  /** Mapping a range onto itself moves nothing. */
  lemma ReprojIdentity(x: real, x0: real, x1: real)
    ensures x1 != x0 ==> Reproj(x, x0, x1, x0, x1) == x
  {
    if x1 != x0 {
      CancelDivision(x1 - x0, x - x0);
      assert (x - x0) * (x1 - x0) == (x1 - x0) * (x - x0);
    }
  }
}
