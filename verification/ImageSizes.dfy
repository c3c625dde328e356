/** The output size chosen for a requested aspect ratio, computed over the real numbers throughout. */
module ImageSizes {
  const MIN_PIXELS := 655360
  const MAX_PIXELS := 8294400
  const MAX_EDGE := 3840
  const TARGET_PIXELS := 1800000.0

  /** Rounding to the nearest integer, halves to the even one. */
  function Round(x: real): (n: int)
    ensures x - 0.5 <= n as real <= x + 0.5
  {
    var floor := x.Floor;
    var rest := x - floor as real;
    if rest < 0.5 then floor
    else if rest > 0.5 then floor + 1
    else if floor % 2 == 0 then floor
    else floor + 1
  }

  function Max(a: int, b: int): int {
    if a >= b then a else b
  }

  function Clamped(ratio: real): (r: real)
    ensures 1.0 / 3.0 <= r <= 3.0
  {
    var low := if ratio < 3.0 then ratio else 3.0;
    if low > 1.0 / 3.0 then low else 1.0 / 3.0
  }

  /** The root that the code takes is given by its defining equation. */
  predicate IsRoot(root: real, r: real)
    requires r > 0.0
  {
    root >= 0.0 && root * root == if r >= 1.0 then TARGET_PIXELS / r else TARGET_PIXELS * r
  }

  datatype Size = Size(width: int, height: int)

  /** The size before any of the four repair loops. */
  function FirstGuess(r: real, root: real): Size
    requires r > 0.0
  {
    var short := ToSixteen(root);
    var long := ToSixteen(LongEdgeFor(short, r));
    if r >= 1.0 then Size(long, short) else Size(short, long)
  }

  /** The long edge that gives exactly the aspect. */
  function LongEdgeFor(short: int, r: real): real
    requires r > 0.0
  {
    if r >= 1.0 then short as real * r else short as real / r
  }

  /** The nearest multiple of 16, at least 16. */
  function ToSixteen(edge: real): int {
    Max(16, Round(edge / 16.0) * 16)
  }

  // ----- the repair loops -----

  /** Takes 16 pixels at a time off the long edge while the aspect is beyond three to one. */
  method NarrowTo(long: int, short: int) returns (l: int)
    requires short > 0
    ensures !BeyondThree(l, short)
    ensures !BeyondThree(long, short) ==> l == long
  {
    l := long;
    while BeyondThree(l, short)
      invariant l <= long && (l < long ==> BeyondThree(long, short))
      decreases l
    {
      BeyondThreeMeans(l, short);
      BeyondThreeMeans(long, short);
      l := l - 16;
    }
  }

  predicate BeyondThree(long: int, short: int)
    requires short > 0
  {
    long as real / short as real > 3.0
  }

  lemma BeyondThreeMeans(l: int, short: int)
    requires short > 0
    ensures BeyondThree(l, short) <==> l > 3 * short
  {
    var z := l as real / short as real;
    assert z * short as real == l as real;
    if z > 3.0 {
      MulStrict(3.0, z, short as real);
    } else {
      MulMonotone(z, 3.0, short as real);
    }
  }

  lemma MulStrict(a: real, b: real, c: real)
    requires a < b && c > 0.0
    ensures a * c < b * c
  {
  }

  /** The least size the provider takes. */
  predicate BigEnough(s: Size) {
    s.width * s.height >= 655360
  }

  /** The greatest size the provider takes. */
  predicate SmallEnough(s: Size) {
    s.width * s.height <= 8294400 && s.width <= 3840 && s.height <= 3840
  }

  predicate TooSmall(s: Size) {
    s.width * s.height < MIN_PIXELS
  }

  method GrowToMinimum(s: Size) returns (t: Size)
    requires s.width > 0 && s.height > 0
    ensures t.width > 0 && t.height > 0 && BigEnough(t)
    ensures BigEnough(s) ==> t == s
  {
    t := s;
    while TooSmall(t)
      invariant t.width > 0 && t.height > 0
      invariant t != s ==> TooSmall(s)
      decreases MIN_PIXELS - t.width * t.height
    {
      assert (t.width + 16) * (t.height + 16) == t.width * t.height + 16 * t.width + 16 * t.height + 256;
      t := Size(t.width + 16, t.height + 16);
    }
  }

  predicate TooLarge(s: Size) {
    s.width * s.height > MAX_PIXELS || s.width > MAX_EDGE || s.height > MAX_EDGE
  }

  method ShrinkToMaximum(s: Size) returns (t: Size)
    requires s.width > 0 && s.height > 0
    ensures SmallEnough(t)
    ensures SmallEnough(s) ==> t == s
  {
    t := s;
    while TooLarge(t)
      invariant t.width > 0 || t.height > 0
      invariant t != s ==> TooLarge(s)
      decreases Max(t.width, t.height)
    {
      NotBothSmall(t);
      t := Size(t.width - 16, t.height - 16);
    }
  }

  lemma NotBothSmall(s: Size)
    requires TooLarge(s) && (s.width > 0 || s.height > 0)
    ensures s.width > 16 || s.height > 16
  {
    if s.width <= 16 && s.height <= 16 {
      SmallProduct(s.width, s.height);
    }
  }

  lemma SmallProduct(a: int, b: int)
    requires a <= 16 && b <= 16 && (a > 0 || b > 0)
    ensures a * b <= 256
  {
    if a > 0 && b > 0 {
      MulMonotone(a as real, 16.0, b as real);
      MulMonotone(b as real, 16.0, 16.0);
    } else if a > 0 {
      assert a * b <= 0;
    } else {
      assert a * b <= 0;
    }
  }

  // ----- why they never run -----

  lemma MulSign(a: real, b: real)
    requires a >= 0.0 && b >= 0.0
    ensures a * b >= 0.0
  {
  }

  lemma MulMonotone(a: real, b: real, c: real)
    requires a <= b && c >= 0.0
    ensures a * c <= b * c
  {
    MulSign(b - a, c);
    assert (b - a) * c == b * c - a * c;
  }

  /** With edges of 16k and 16m pixels, x the unrounded short edge over 16, and q the aspect. */
  predicate Setting(q: real, x: real, k: int, m: int) {
    UnroundedFits(q, x) && x - 0.5 <= k as real <= x + 0.5 && LongRounded(q, k, m)
  }

  predicate UnroundedFits(q: real, x: real) {
    1.0 <= q <= 3.0 && x >= 0.0 && x * x * q == 7031.25
  }

  predicate LongRounded(q: real, k: int, m: int) {
    k as real * q - 0.5 <= m as real <= k as real * q + 0.5
  }

  lemma ShortEdge(q: real, x: real)
    requires UnroundedFits(q, x)
    ensures 48.4 < x < 83.9
  {
    if x <= 48.4 {
      MulMonotone(x, 48.4, x);
      MulMonotone(x, 48.4, 48.4);
      MulMonotone(x * x, 2342.56, q);
      MulMonotone(q, 3.0, 2342.56);
    }
    if x >= 83.9 {
      MulMonotone(83.9, x, x);
      MulMonotone(83.9, x, 83.9);
      MulMonotone(1.0, q, x * x);
    }
  }

  lemma LongEdge(q: real, x: real)
    requires UnroundedFits(q, x) && x > 0.0
    ensures 0.0 < x * q < 145.3 && x * (x * q) == 7031.25
  {
    var y := x * q;
    assert x * y == 7031.25;
    MulMonotone(1.0, q, x);
    if y >= 145.3 {
      MulMonotone(145.3, y, y);
      MulMonotone(145.3, y, 145.3);
      assert y * y == (x * y) * q;
      MulMonotone(q, 3.0, 7031.25);
    }
  }

  lemma LongVersusShort(q: real, k: int, m: int)
    requires 1.0 <= q <= 3.0 && k >= 0 && LongRounded(q, k, m)
    ensures k <= m <= 3 * k
  {
    BetweenOneAndThree(q, k as real);
    assert 3.0 * k as real == (3 * k) as real;
  }

  lemma BetweenOneAndThree(q: real, k: real)
    requires 1.0 <= q <= 3.0 && k >= 0.0
    ensures k <= k * q <= 3.0 * k
  {
    MulSign(3.0 - q, k);
    MulSign(q - 1.0, k);
    assert (3.0 - q) * k == 3.0 * k - k * q;
    assert (q - 1.0) * k == k * q - k;
  }

  lemma ErrorStretched(d: real, q: real)
    requires 1.0 <= q <= 3.0 && -0.5 <= d <= 0.5
    ensures -1.5 <= d * q <= 1.5
  {
    MulSign(0.5 - d, q);
    MulSign(0.5 + d, q);
    assert (0.5 - d) * q == 0.5 * q - d * q;
    assert (0.5 + d) * q == 0.5 * q + d * q;
  }

  lemma LongNear(q: real, x: real, k: int, m: int)
    requires Setting(q, x, k, m)
    ensures x * q - 2.0 <= m as real <= x * q + 2.0
  {
    var d := k as real - x;
    ErrorStretched(d, q);
    assert k as real * q == x * q + d * q;
  }

  lemma EdgesFit(q: real, x: real, k: int, m: int)
    requires Setting(q, x, k, m)
    ensures 48 <= k <= 84 && k <= m <= 3 * k && m <= 147
  {
    ShortEdge(q, x);
    LongEdge(q, x);
    LongNear(q, x, k, m);
    LongVersusShort(q, k, m);
  }

  lemma PixelsFit(q: real, x: real, k: int, m: int)
    requires Setting(q, x, k, m)
    ensures 1700000 <= (16 * k) * (16 * m) <= 1900000
  {
    ShortEdge(q, x);
    LongEdge(q, x);
    LongNear(q, x, k, m);
    MulMonotone(1.0, q, x);
    hide Setting;
    var y := x * q;
    assert x - 0.5 <= k as real <= x + 0.5;
    ProductBelow(x, y, k as real, m as real);
    ProductAbove(x, y, k as real, m as real);
    assert k as real * m as real == (k * m) as real;
    assert (16 * k) * (16 * m) == 256 * (k * m);
  }

  lemma ProductBelow(x: real, y: real, k: real, m: real)
    requires 48.4 < x < 83.9 && x <= y < 145.3 && x * y == 7031.25
    requires x - 0.5 <= k <= x + 0.5 && y - 2.0 <= m <= y + 2.0
    ensures k * m <= 7300.0
  {
    MulMonotone(k, x + 0.5, m);
    MulMonotone(m, y + 2.0, x + 0.5);
    assert (x + 0.5) * (y + 2.0) == x * y + 2.0 * x + 0.5 * y + 1.0;
  }

  lemma ProductAbove(x: real, y: real, k: real, m: real)
    requires 48.4 < x < 83.9 && x <= y < 145.3 && x * y == 7031.25
    requires x - 0.5 <= k <= x + 0.5 && y - 2.0 <= m <= y + 2.0
    ensures k * m >= 6700.0
  {
    MulMonotone(x - 0.5, k, m);
    MulMonotone(y - 2.0, m, x - 0.5);
    assert (x - 0.5) * (y - 2.0) == x * y - 2.0 * x - 0.5 * y + 1.0;
  }

  const NEAR := 1.0 / 96.0

  lemma QuotientSmall(error: real, k: real)
    requires k >= 48.0 && -0.5 <= error * k <= 0.5
    ensures -NEAR <= error <= NEAR
  {
    var p := error * k;
    assert error == p / k;
    DivideBy(p, k);
  }

  lemma DivideBy(p: real, k: real)
    requires k >= 48.0 && -0.5 <= p <= 0.5
    ensures -NEAR <= p / k <= NEAR
  {
    var z := p / k;
    assert z * k == p;
    assert NEAR * 48.0 == 0.5;
    if z > NEAR {
      MulStrict(NEAR, z, k);
    } else if z < -NEAR {
      MulStrict(z, -NEAR, k);
    }
    MulMonotone(48.0, k, NEAR);
  }

  /** The longer edge over the shorter one is within 1/96 of the request. */
  lemma AspectNear(q: real, x: real, k: int, m: int)
    requires Setting(q, x, k, m)
    ensures var aspect := (16 * m) as real / (16 * k) as real; q - NEAR <= aspect <= q + NEAR
  {
    EdgesFit(q, x, k, m);
    var aspect := (16 * m) as real / (16 * k) as real;
    assert aspect * (16 * k) as real == (16 * m) as real;
    assert aspect * k as real == m as real;
    assert (aspect - q) * k as real == m as real - k as real * q;
    QuotientSmall(aspect - q, k as real);
  }

  /** The requested aspect as longer over shorter edge. */
  function Aspect(r: real): real
    requires r > 0.0
  {
    if r >= 1.0 then r else 1.0 / r
  }

  predicate GoodSize(r: real, s: Size)
    requires r > 0.0
  {
    var long, short := if r >= 1.0 then s.width else s.height, if r >= 1.0 then s.height else s.width;
    && s.width % 16 == 0 && s.height % 16 == 0
    && 768 <= short <= long <= 3 * short && long <= 3840
    && 1700000 <= s.width * s.height <= 1900000
    && Aspect(r) - NEAR <= long as real / short as real <= Aspect(r) + NEAR
  }

  lemma RootSetting(r: real, root: real)
    requires 1.0 / 3.0 <= r <= 3.0 && IsRoot(root, r)
    ensures UnroundedFits(Aspect(r), root / 16.0)
  {
    var q, x := Aspect(r), root / 16.0;
    assert root == 16.0 * x;
    assert root * root == 256.0 * (x * x);
    if r >= 1.0 {
      assert root * root * r == TARGET_PIXELS;
    } else {
      assert q * r == 1.0;
      assert root * root * q == TARGET_PIXELS * (r * q);
      if q > 3.0 {
        MulMonotone(1.0 / 3.0, r, q);
      }
      if q < 1.0 {
        MulMonotone(q, 1.0, r);
      }
    }
    assert 256.0 * (x * x * q) == 256.0 * (x * x) * q;
  }

  lemma GuessIs(r: real, root: real) returns (k: int, m: int)
    requires 1.0 / 3.0 <= r <= 3.0 && IsRoot(root, r)
    ensures Setting(Aspect(r), root / 16.0, k, m)
    ensures FirstGuess(r, root) == if r >= 1.0 then Size(16 * m, 16 * k) else Size(16 * k, 16 * m)
  {
    hide IsRoot, Round, UnroundedFits, LongRounded, ToSixteen, Aspect, LongEdgeFor;
    RootSetting(r, root);
    ShortEdge(Aspect(r), root / 16.0);
    AspectRange(r, root);
    k := Round(root / 16.0);
    AtLeastSixteen(root, k);
    m := LongGuess(r, k);
  }

  lemma AspectRange(r: real, root: real)
    requires r > 0.0 && UnroundedFits(Aspect(r), root / 16.0)
    ensures 1.0 <= Aspect(r) <= 3.0
  {
  }

  lemma AtLeastSixteen(edge: real, k: int)
    requires k == Round(edge / 16.0) && k >= 1
    ensures ToSixteen(edge) == 16 * k
  {
  }

  /** The long edge in units of 16, from the short edge in units of 16. */
  lemma LongGuess(r: real, k: int) returns (m: int)
    requires 1.0 / 3.0 <= r <= 3.0 && k >= 1 && 1.0 <= Aspect(r) <= 3.0
    ensures LongRounded(Aspect(r), k, m)
    ensures ToSixteen(LongEdgeFor(16 * k, r)) == 16 * m
  {
    hide Aspect, LongEdgeFor, ToSixteen, LongRounded;
    SixteenthOfLong(r, k);
    m := Round(LongEdgeFor(16 * k, r) / 16.0);
    RoundedLong(Aspect(r), LongEdgeFor(16 * k, r), k, m);
    LongVersusShort(Aspect(r), k, m);
    AtLeastSixteen(LongEdgeFor(16 * k, r), m);
  }

  lemma RoundedLong(q: real, edge: real, k: int, m: int)
    requires edge / 16.0 == k as real * q && m == Round(edge / 16.0)
    ensures LongRounded(q, k, m)
  {
  }

  lemma SixteenthOfLong(r: real, k: int)
    requires r > 0.0
    ensures LongEdgeFor(16 * k, r) / 16.0 == k as real * Aspect(r)
  {
    if r < 1.0 {
      assert (16 * k) as real / r == (16 * k) as real * (1.0 / r);
    }
  }

  lemma GuessIsGood(r: real, root: real)
    requires 1.0 / 3.0 <= r <= 3.0 && IsRoot(root, r)
    ensures GoodSize(r, FirstGuess(r, root)) && SmallEnough(FirstGuess(r, root))
  {
    hide IsRoot, FirstGuess, Setting, Aspect;
    var k, m := GuessIs(r, root);
    EdgesFit(Aspect(r), root / 16.0, k, m);
    PixelsFit(Aspect(r), root / 16.0, k, m);
    AspectNear(Aspect(r), root / 16.0, k, m);
    SidesAreGood(r, FirstGuess(r, root), 16 * k, 16 * m);
  }

  lemma SidesAreGood(r: real, s: Size, short: int, long: int)
    requires r > 0.0 && s == if r >= 1.0 then Size(long, short) else Size(short, long)
    requires short % 16 == 0 && long % 16 == 0 && 768 <= short <= long <= 3 * short && long <= 2352
    requires 1700000 <= short * long <= 1900000
    requires Aspect(r) - NEAR <= long as real / short as real <= Aspect(r) + NEAR
    ensures GoodSize(r, s) && SmallEnough(s)
  {
    hide Aspect;
    assert short * long == long * short;
  }

  /** For every requested ratio the first guess is within all limits, so none of the repair loops
      changes it. */
  method Flexible(ratio: real, root: real) returns (s: Size)
    requires IsRoot(root, Clamped(ratio))
    ensures GoodSize(Clamped(ratio), s)
    ensures s == FirstGuess(Clamped(ratio), root)
  {
    hide GoodSize, IsRoot, ToSixteen, SmallEnough, BigEnough, Clamped, BeyondThree, LongEdgeFor;
    var r := Clamped(ratio);
    GuessIsGood(r, root);
    NoNarrowing(r, root);
    if r >= 1.0 {
      var h := ToSixteen(root);
      var w := ToSixteen(LongEdgeFor(h, r));
      w := NarrowTo(w, h);
      s := Size(w, h);
    } else {
      var w := ToSixteen(root);
      var h := ToSixteen(LongEdgeFor(w, r));
      h := NarrowTo(h, w);
      s := Size(w, h);
    }
    s := GrowToMinimum(s);
    s := ShrinkToMaximum(s);
  }

  lemma NoNarrowing(r: real, root: real)
    requires 1.0 / 3.0 <= r <= 3.0 && GoodSize(r, FirstGuess(r, root))
    ensures var s := FirstGuess(r, root);
      && s.width > 0 && s.height > 0 && BigEnough(s)
      && (if r >= 1.0 then !BeyondThree(s.width, s.height) else !BeyondThree(s.height, s.width))
  {
    var s := FirstGuess(r, root);
    BeyondThreeMeans(s.width, s.height);
    BeyondThreeMeans(s.height, s.width);
  }
}
