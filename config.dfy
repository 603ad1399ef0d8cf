/** The viewer's configuration code with behaviour (src/stereoviewer/config.cpp):
    the non-repeating hue rule of keypoint colours, the unit conversions that
    bring every detector's keypoints to a common scale and angle convention,
    and Bundler's descriptor printer. */
module Config {

  /** `prelude::constants::pi`. */
  const Pi: real := 3.14159265358979323846

  /** The number of hue bands of `keypoint_color`. */
  const HueBands := 12

  datatype Hsv = Hsv(hue: int, sat: int, val: int)

  /** The band actually used: a drawn band equal to the previous one is
      bumped to the next band, modulo the band count. */
  function NextBand(last: int, drawn: int): (b: int)
    requires 0 <= drawn < HueBands
    ensures 0 <= b < HueBands
    ensures b != last
    ensures drawn != last ==> b == drawn
  {
    if drawn == last then (drawn + 1) % HueBands else drawn
  }

  /** `keypoint_color` as a generator: `lastHueBand` is the function-local
      static (zero-initialised); the random draws `rnd(0, 11)`,
      `rnd(0xcc, 0xff)` and `rnd(0xdd, 0xff)` are parameters. */
  class KeypointColors {
    var lastHueBand: int

    constructor()
      ensures lastHueBand == 0
    {
      lastHueBand := 0;
    }

    method Next(drawnBand: int, drawnSat: int, drawnVal: int) returns (c: Hsv)
      requires 0 <= drawnBand < HueBands
      requires 0xcc <= drawnSat <= 0xff && 0xdd <= drawnVal <= 0xff
      modifies this
      ensures lastHueBand == NextBand(old(lastHueBand), drawnBand)
      ensures c == Hsv(lastHueBand * 360 / HueBands, drawnSat, drawnVal)
      ensures lastHueBand != old(lastHueBand)
    {
      var band := drawnBand;
      if band == lastHueBand {
        band := (band + 1) % HueBands;
      }
      lastHueBand := band;
      c := Hsv(band * 360 / HueBands, drawnSat, drawnVal);
    }
  }

  /** The hue of a band: a multiple of 30 degrees below 360. */
  function BandHue(band: int): (h: int)
    requires 0 <= band < HueBands
    ensures h == 30 * band && 0 <= h < 360
  {
    band * 360 / HueBands
  }

  /** The colours of a run of calls, starting from a fresh static. */
  method KeypointColorRun(bands: seq<int>, sats: seq<int>, vals: seq<int>) returns (cs: seq<Hsv>)
    requires |bands| == |sats| == |vals|
    requires forall i :: 0 <= i < |bands| ==> 0 <= bands[i] < HueBands
    requires forall i :: 0 <= i < |sats| ==> 0xcc <= sats[i] <= 0xff
    requires forall i :: 0 <= i < |vals| ==> 0xdd <= vals[i] <= 0xff
    ensures |cs| == |bands|
    ensures forall i :: 0 <= i < |cs| ==> cs[i].hue % 30 == 0 && 0 <= cs[i].hue < 360
    ensures forall i :: 0 <= i < |cs| ==> cs[i].sat == sats[i] && cs[i].val == vals[i]
    ensures |cs| > 0 ==> cs[0].hue != 0
    ensures forall i :: 0 < i < |cs| ==> cs[i].hue != cs[i - 1].hue
  {
    var gen := new KeypointColors();
    cs := [];
    var i := 0;
    while i < |bands|
      invariant 0 <= i <= |bands| && |cs| == i
      invariant 0 <= gen.lastHueBand < HueBands
      invariant i > 0 ==> cs[i - 1].hue == BandHue(gen.lastHueBand)
      invariant i == 0 ==> gen.lastHueBand == 0
      invariant forall t :: 0 <= t < i ==> cs[t].hue % 30 == 0 && 0 <= cs[t].hue < 360
      invariant forall t :: 0 <= t < i ==> cs[t].sat == sats[t] && cs[t].val == vals[t]
      invariant i > 0 ==> cs[0].hue != 0
      invariant forall t :: 0 < t < i ==> cs[t].hue != cs[t - 1].hue
    {
      var previous := gen.lastHueBand;
      var c := gen.Next(bands[i], sats[i], vals[i]);
      DistinctBandsDistinctHues(previous, gen.lastHueBand);
      cs := cs + [c];
      i := i + 1;
    }
  }

  /** Distinct bands have distinct hues. */
  lemma DistinctBandsDistinctHues(b1: int, b2: int)
    requires 0 <= b1 < HueBands && 0 <= b2 < HueBands
    ensures BandHue(b1) == BandHue(b2) <==> b1 == b2
  {
  }

  /** The keypoint detectors whose output the viewer adapts. */
  datatype Detector = Sift | SiftPP | CvSurf | OpenSurf

  /** `adapt_scale` of each detector: the scale unchanged.  OpenCV's SURF
      reports an integer size, whose conversion to floating point is exact,
      so an integral input comes back integral. */
  function AdaptScale(d: Detector, x: real): (s: real)
    requires d == CvSurf ==> x == x.Floor as real
    ensures s == x
    ensures d == CvSurf ==> s.Floor as real == s
  {
    x
  }

  /** `adapt_rotation` of each detector: OpenCV's SURF gives degrees,
      turned into radians; OpenSURF's angle in `[0, 2 pi)` is shifted by
      `pi`; SIFT and SIFT++ are left alone. */
  function AdaptRotation(d: Detector, x: real): (r: real)
    ensures d == Sift || d == SiftPP ==> r == x
    ensures d == CvSurf ==> r * 180.0 == x * Pi
    ensures d == OpenSurf ==> r + Pi == x
  {
    match d
    case CvSurf => x / 180.0 * Pi
    case OpenSurf => x - Pi
    case _ => x
  }

  /** A full turn in degrees is two pi radians, a half turn pi. */
  lemma CvSurfRotationTurns()
    ensures AdaptRotation(CvSurf, 180.0) == Pi
    ensures AdaptRotation(CvSurf, 360.0) == 2.0 * Pi
    ensures AdaptRotation(CvSurf, 0.0) == 0.0
  {
  }

  /** OpenSURF's orientations in `[0, 2 pi)` become `[-pi, pi)`. */
  lemma OpenSurfRotationRange(x: real)
    requires 0.0 <= x < 2.0 * Pi
    ensures -Pi <= AdaptRotation(OpenSurf, x) < Pi
  {
  }

  /** `adapt_descriptor` is the identity for every detector (SIFT++'s
      unsigned descriptor entries are converted to floating point). */
  function AdaptDescriptor(d: Detector, x: real): (r: real)
    ensures r == x
  {
    x
  }

  /** `static_cast<unsigned short>` of a float: truncation toward zero,
      defined by C++ only for values in `(-1, 65536)`. */
  function ToUnsignedShort(x: real): (n: nat)
    requires -1.0 < x < 65536.0
    ensures n < 65536
    ensures n as real <= x < n as real + 1.0 || (x < 0.0 && n == 0)
  {
    if x < 0.0 then 0 else x.Floor
  }

  /** The decimal digits of a natural number, as `QString::arg` prints it. */
  function Decimal(n: nat): (s: string)
    ensures |s| > 0
    ensures forall i :: 0 <= i < |s| ==> '0' <= s[i] <= '9'
    ensures |s| > 1 ==> s[0] != '0'
  {
    if n < 10 then [Digit(n)] else Decimal(n / 10) + [Digit(n % 10)]
  }

  function Digit(d: nat): (c: char)
    requires d < 10
    ensures '0' <= c <= '9'
  {
    ['0', '1', '2', '3', '4', '5', '6', '7', '8', '9'][d]
  }

  function DigitValue(c: char): nat
  {
    if '0' <= c <= '9' then (c as int - '0' as int) else 0
  }

  /** Reading decimal digits back. */
  function ParseDecimal(s: string): nat
  {
    if |s| == 0 then 0 else ParseDecimal(s[..|s| - 1]) * 10 + DigitValue(s[|s| - 1])
  }

  /** The printed digits read back as the number printed. */
  lemma {:induction false} DecimalRoundTrip(n: nat)
    ensures ParseDecimal(Decimal(n)) == n
  {
    DigitIndex(n % 10);
    if n >= 10 {
      DecimalRoundTrip(n / 10);
      var s := Decimal(n);
      assert s[..|s| - 1] == Decimal(n / 10);
    }
  }

  lemma DigitIndex(d: nat)
    requires d < 10
    ensures DigitValue(Digit(d)) == d
  {
  }

  /** `bundler::pretty_descriptor` (also used by `bundler_keymatchfull`):
      the value truncated to `unsigned short`, in decimal. */
  function BundlerPrettyDescriptor(x: real): (s: string)
    requires -1.0 < x < 65536.0
    ensures ParseDecimal(s) == ToUnsignedShort(x)
    ensures 0 < |s| <= 5
  {
    DecimalRoundTrip(ToUnsignedShort(x));
    DecimalLength(ToUnsignedShort(x));
    Decimal(ToUnsignedShort(x))
  }

  /** A number below `10^k` (k at least one) prints in at most `k` digits. */
  lemma {:induction false} DecimalLength(n: nat)
    ensures n < 100000 ==> |Decimal(n)| <= 5
    ensures n < 10000 ==> |Decimal(n)| <= 4
    ensures n < 1000 ==> |Decimal(n)| <= 3
    ensures n < 100 ==> |Decimal(n)| <= 2
  {
    if n >= 10 {
      DecimalLength(n / 10);
    }
  }
}
