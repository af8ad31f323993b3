/** The Wilson-interval flake classifier over exact reals. The square root is a
    parameter with its defining property, so no approximation enters. */
module Wilson {
  import opened Wrappers

  const Z := 1.96

  datatype Interval = Interval(lower: real, upper: real)

  /** The failure rate is undefined for no attempts. */
  datatype Decision = Decision(attempts: int, failures: int, failureRate: Option<real>, interval: Interval,
                               isFlaky: bool, isBroken: bool, insufficient: bool)

  datatype Threshold = Threshold(minSamples: int, flakyCutoff: real, brokenCutoff: real)

  const DEFAULT := Threshold(20, 0.05, 0.90)

  function Rate(f: nat, n: nat): real
    requires n > 0
  {
    f as real / n as real
  }

  function Weight(n: nat): real
    requires n > 0
  {
    Z * Z / n as real
  }

  /** What the margin takes the square root of. */
  function Discriminant(f: nat, n: nat): real
    requires n > 0
  {
    var p, m := Rate(f, n), n as real;
    p * (1.0 - p) / m + Z * Z / (4.0 * m * m)
  }

  predicate IsRoot(root: real, x: real)
  {
    root >= 0.0 && root * root == x
  }

  function Center(f: nat, n: nat): real
    requires n > 0
  {
    var denom := 1.0 + Z * Z / n as real;
    (Rate(f, n) + Z * Z / (2.0 * n as real)) / denom
  }

  function Margin(n: nat, root: real): real
    requires n > 0
  {
    var denom := 1.0 + Z * Z / n as real;
    Z * root / denom
  }

  function Max(a: real, b: real): real { if a >= b then a else b }

  function Min(a: real, b: real): real { if a <= b then a else b }

  function WilsonInterval(f: nat, n: nat, root: real): Interval
  {
    if n == 0 then Interval(0.0, 0.0)
    else Interval(Max(0.0, Center(f, n) - Margin(n, root)), Min(1.0, Center(f, n) + Margin(n, root)))
  }

  function Classify(f: nat, n: nat, root: real, t: Threshold): Decision
  {
    if n < t.minSamples then
      Decision(n, f, Some(0.0), Interval(0.0, 0.0), false, false, true)
    else
      var interval := WilsonInterval(f, n, root);
      var rate := if n == 0 then None else Some(Rate(f, n));
      if interval.lower > t.brokenCutoff then Decision(n, f, rate, interval, false, true, false)
      else Decision(n, f, rate, interval, interval.lower > t.flakyCutoff, false, false)
  }

  // ------------------------------------------------ algebra on p, c and w

  /** p is a rate, w is z squared over n, and s is z times the root. */
  predicate Setting(p: real, w: real, s: real)
  {
    0.0 <= p <= 1.0 && w > 0.0 && s >= 0.0 && s * s == w * p * (1.0 - p) + w * w / 4.0
  }

  /** The square of the distance from c, scaled, against the square of the margin. */
  lemma DistanceAgainstMargin(p: real, w: real, s: real, c: real, x: real)
    requires s * s == w * p * (1.0 - p) + w * w / 4.0
    requires x == p + w / 2.0 - c * (1.0 + w)
    ensures x * x - s * s == (1.0 + w) * ((p - c) * (p - c) - w * c * (1.0 - c))
  {
  }

  lemma ProductSign(a: real, b: real)
    requires a > 0.0
    ensures a * b > 0.0 <==> b > 0.0
    ensures a * b >= 0.0 <==> b >= 0.0
  {
  }

  lemma SquareOrder(a: real, b: real)
    requires a >= 0.0 && b >= 0.0
    ensures a > b <==> a * a > b * b
    ensures a >= b <==> a * a >= b * b
  {
    var u, v, v' := a + b, a - b, b - a;
    assert a * a - b * b == u * v;
    assert b * b - a * a == u * v';
    if u > 0.0 {
      ProductSign(u, v);
      ProductSign(u, v');
    } else {
      assert a == 0.0 && b == 0.0;
    }
  }

  lemma NonNegative(a: real, b: real)
    requires a >= 0.0 && b >= 0.0
    ensures a * b >= 0.0
  {
  }

  lemma CancelPositive(a: real, x: real, y: real)
    requires a > 0.0 && a * x < a * y
    ensures x < y
  {
    assert a * y - a * x == a * (y - x);
    ProductSign(a, y - x);
  }

  /** Above the cutoff the distance is positive. */
  lemma DistanceIsPositive(p: real, w: real, c: real)
    requires p <= 1.0 && w > 0.0 && 0.0 <= c < 1.0 && p > c
    requires (p - c) * (p - c) > w * c * (1.0 - c)
    ensures p + w / 2.0 - c * (1.0 + w) > 0.0
  {
    var d, k := p - c, 1.0 - c;
    NonNegative(d, k - d);
    assert d * (k - d) == k * d - d * d;
    var wc := w * c;
    assert w * c * (1.0 - c) == k * wc;
    CancelPositive(k, wc, d);
    assert p + w / 2.0 - c * (1.0 + w) == d - wc + w / 2.0;
  }

  /** Below the cutoff the distance cannot be positive and larger than the margin. */
  lemma DistanceIsNotPositive(p: real, w: real, c: real)
    requires 0.0 <= p && w > 0.0 && 0.0 <= c < 1.0 && p <= c
    requires (p - c) * (p - c) > w * c * (1.0 - c)
    ensures p + w / 2.0 - c * (1.0 + w) <= 0.0
  {
    var d, k := c - p, w * (1.0 - c);
    assert (p - c) * (p - c) == d * d;
    NonNegative(d, c - d);
    assert d * (c - d) == c * d - d * d;
    assert w * c * (1.0 - c) == c * k;
    assert c > 0.0;
    CancelPositive(c, k, d);
    assert p + w / 2.0 - c * (1.0 + w) == k - d - w / 2.0;
  }

  /** The lower end lies above c exactly when a test without roots says so. */
  lemma AboveIff(p: real, w: real, s: real, c: real)
    requires Setting(p, w, s) && 0.0 <= c < 1.0
    ensures p + w / 2.0 - s > c * (1.0 + w) <==> p > c && (p - c) * (p - c) > w * c * (1.0 - c)
  {
    var x := p + w / 2.0 - c * (1.0 + w);
    var y := (p - c) * (p - c) - w * c * (1.0 - c);
    DistanceAgainstMargin(p, w, s, c, x);
    ProductSign(1.0 + w, y);
    if x > 0.0 { SquareOrder(x, s); }
    if y > 0.0 {
      if p > c { DistanceIsPositive(p, w, c); } else { DistanceIsNotPositive(p, w, c); }
    }
  }

  lemma RootBelow(s: real, a: real, k: real)
    requires s >= 0.0 && a >= 0.0 && k >= 0.0 && a * a - s * s == k
    ensures s <= a
  {
    SquareOrder(a, s);
  }

  lemma LowerEndSquare(p: real, w: real, a: real)
    requires a == p + w / 2.0
    ensures a * a - (w * p * (1.0 - p) + w * w / 4.0) == p * p * (1.0 + w)
  {
  }

  lemma RateSquare(p: real, w: real, e: real)
    requires e == w * (0.5 - p)
    ensures w * p * (1.0 - p) + w * w / 4.0 - e * e == w * (p * (1.0 - p)) + w * w * (p * (1.0 - p))
  {
  }

  lemma LowerEndIsNotNegative(p: real, w: real, s: real)
    requires Setting(p, w, s)
    ensures s <= p + w / 2.0
  {
    var a := p + w / 2.0;
    LowerEndSquare(p, w, a);
    NonNegative(p, p);
    NonNegative(p * p, 1.0 + w);
    RootBelow(s, a, p * p * (1.0 + w));
  }

  lemma RateIsWithin(p: real, w: real, s: real, e: real)
    requires Setting(p, w, s) && e == w * (0.5 - p)
    ensures -s <= e <= s
  {
    var q := p * (1.0 - p);
    NonNegative(p, 1.0 - p);
    NonNegative(w, q);
    NonNegative(w, w);
    NonNegative(w * w, q);
    RateSquare(p, w, e);
    if e >= 0.0 {
      RootBelow(e, s, w * q + w * w * q);
    } else {
      assert (-e) * (-e) == e * e;
      RootBelow(-e, s, w * q + w * w * q);
    }
  }

  lemma OtherSide(p: real, w: real, s: real)
    requires Setting(p, w, s)
    ensures Setting(1.0 - p, w, s)
  {
    assert w * p * (1.0 - p) == w * (1.0 - p) * (1.0 - (1.0 - p));
  }

  /** The unclamped ends stay on their side of the rate and of 0 and 1. */
  lemma EndsInOrder(p: real, w: real, s: real)
    requires Setting(p, w, s)
    ensures 0.0 <= p + w / 2.0 - s <= p * (1.0 + w) <= p + w / 2.0 + s <= 1.0 + w
  {
    LowerEndIsNotNegative(p, w, s);
    OtherSide(p, w, s);
    LowerEndIsNotNegative(1.0 - p, w, s);
    var e := w * (0.5 - p);
    RateIsWithin(p, w, s, e);
    assert p * (1.0 + w) == p + w / 2.0 - e;
  }

  // ------------------------------------------------ from p and w to counts

  /** The code's ends in terms of p, w and s, before clamping. */
  lemma EndsInSetting(f: nat, n: nat, root: real, p: real, w: real, s: real, k: real, low: real, high: real)
    requires 0 < n && f <= n && IsRoot(root, Discriminant(f, n))
    requires p == Rate(f, n) && w == Weight(n) && s == Z * root && k == 1.0 + w
    requires low == Center(f, n) - Margin(n, root) && high == Center(f, n) + Margin(n, root)
    ensures Setting(p, w, s)
    ensures low * k == p + w / 2.0 - s && high * k == p + w / 2.0 + s
  {
    var m := n as real;
    RateInRange(f, n);
    assert s * s == Z * Z * (root * root);
    DiscriminantScaled(p, m, w);
    CenterScaled(f, n, p, w, k, Center(f, n));
    MarginScaled(n, root, w, s, k, Margin(n, root));
    SumsScaled(Center(f, n), Margin(n, root), k, low, high);
  }

  lemma CenterScaled(f: nat, n: nat, p: real, w: real, k: real, center: real)
    requires 0 < n && p == Rate(f, n) && w == Weight(n) && k == 1.0 + w && w > 0.0 && center == Center(f, n)
    ensures center * k == p + w / 2.0
  {
    assert Z * Z / (2.0 * n as real) == w / 2.0;
    assert center == (p + w / 2.0) / k;
  }

  lemma MarginScaled(n: nat, root: real, w: real, s: real, k: real, margin: real)
    requires 0 < n && w == Weight(n) && k == 1.0 + w && w > 0.0 && s == Z * root && margin == Margin(n, root)
    ensures margin * k == s
  {
    assert margin == s / k;
  }

  lemma SumsScaled(a: real, b: real, k: real, low: real, high: real)
    requires low == a - b && high == a + b
    ensures low * k == a * k - b * k && high * k == a * k + b * k
  {
  }

  lemma RateInRange(f: nat, n: nat)
    requires 0 < n && f <= n
    ensures 0.0 <= Rate(f, n) <= 1.0 && Rate(f, n) * n as real == f as real
  {
  }

  lemma DiscriminantScaled(p: real, m: real, w: real)
    requires m > 0.0 && w == Z * Z / m
    ensures Z * Z * (p * (1.0 - p) / m + Z * Z / (4.0 * m * m)) == w * p * (1.0 - p) + w * w / 4.0
    ensures w > 0.0
  {
    assert w * m == Z * Z;
    var q := p * (1.0 - p);
    assert Z * Z * (q / m) == w * q;
    assert Z * Z / (4.0 * m * m) == w / (4.0 * m);
    assert Z * Z * (w / (4.0 * m)) == w * w / 4.0;
  }

  // ------------------------------------------------ the interval

  lemma Rescale(x: real, y: real, k: real, xk: real, yk: real)
    requires k > 0.0 && xk == x * k && yk == y * k
    ensures xk < yk <==> x < y
    ensures xk <= yk <==> x <= y
  {
    var d, e := y - x, x - y;
    assert yk - xk == k * d;
    assert xk - yk == k * e;
    ProductSign(k, d);
    ProductSign(k, e);
  }

  lemma EndsRescaled(p: real, w: real, s: real, k: real, low: real, high: real)
    requires Setting(p, w, s) && k == 1.0 + w
    requires low * k == p + w / 2.0 - s && high * k == p + w / 2.0 + s
    ensures 0.0 <= low <= p <= high <= 1.0
  {
    EndsInOrder(p, w, s);
    var a, b, r := p + w / 2.0 - s, p + w / 2.0 + s, p * (1.0 + w);
    assert r == p * k && k == 1.0 * k && 0.0 == 0.0 * k;
    Rescale(0.0, low, k, 0.0, a);
    Rescale(low, p, k, a, r);
    Rescale(p, high, k, r, b);
    Rescale(high, 1.0, k, b, k);
  }

  /** Neither clamp ever changes anything: the raw ends are in order around the rate
      and within 0 and 1. */
  lemma ClampsAreRedundant(f: nat, n: nat, root: real)
    requires 0 < n && f <= n && IsRoot(root, Discriminant(f, n))
    ensures WilsonInterval(f, n, root) == Interval(Center(f, n) - Margin(n, root), Center(f, n) + Margin(n, root))
    ensures var i := WilsonInterval(f, n, root); 0.0 <= i.lower <= Rate(f, n) <= i.upper <= 1.0
  {
    var p, w, s := Rate(f, n), Weight(n), Z * root;
    var k, low, high := 1.0 + w, Center(f, n) - Margin(n, root), Center(f, n) + Margin(n, root);
    EndsInSetting(f, n, root, p, w, s, k, low, high);
    EndsRescaled(p, w, s, k, low, high);
  }

  /** The test a comparison with cutoff c amounts to, without root or division. */
  predicate Exceeds(f: nat, n: nat, c: real)
  {
    var d := f as real - c * n as real;
    d > 0.0 && d * d > Z * Z * c * (1.0 - c) * n as real
  }

  lemma CountsFromRates(f: nat, n: nat, p: real, w: real, c: real)
    requires 0 < n && p == Rate(f, n) && w == Weight(n) && f <= n
    ensures Exceeds(f, n, c) <==> p > c && (p - c) * (p - c) > w * c * (1.0 - c)
  {
    var m := n as real;
    RateInRange(f, n);
    assert w * m == Z * Z;
    ScaleToCounts(f as real - c * m, p - c, m, w, c);
  }

  lemma ScaleToCounts(d: real, q: real, m: real, w: real, c: real)
    requires m > 0.0 && d == q * m && w * m == Z * Z
    ensures d > 0.0 && d * d > Z * Z * c * (1.0 - c) * m <==> q > 0.0 && q * q > w * c * (1.0 - c)
  {
    var x, y := w * c * (1.0 - c), q * q;
    ProductSign(m, q);
    ScaleTwice(x, y, m, Z * Z * c * (1.0 - c) * m, d * d);
  }

  lemma ScaleTwice(x: real, y: real, k: real, xkk: real, ykk: real)
    requires k > 0.0 && xkk == x * k * k && ykk == y * k * k
    ensures xkk < ykk <==> x < y
  {
    var xk, yk := x * k, y * k;
    Rescale(x, y, k, xk, yk);
    Rescale(xk, yk, k, xkk, ykk);
  }

  /** The lower bound, scaled by k, in terms of the rate and the weight. */
  lemma LowerScaled(f: nat, n: nat, root: real) returns (p: real, w: real, s: real, k: real, low: real)
    requires 0 < n && f <= n && IsRoot(root, Discriminant(f, n))
    ensures p == Rate(f, n) && w == Weight(n) && k == 1.0 + w && Setting(p, w, s)
    ensures low == WilsonInterval(f, n, root).lower && low * k == p + w / 2.0 - s
  {
    p, w, s := Rate(f, n), Weight(n), Z * root;
    k, low := 1.0 + w, Center(f, n) - Margin(n, root);
    EndsInSetting(f, n, root, p, w, s, k, low, Center(f, n) + Margin(n, root));
    ClampsAreRedundant(f, n, root);
  }

  /** The lower bound exceeds a cutoff exactly when the root-free test on the counts
      says so. */
  lemma LowerExceedsIff(f: nat, n: nat, root: real, c: real)
    requires 0 < n && f <= n && IsRoot(root, Discriminant(f, n)) && 0.0 <= c < 1.0
    ensures WilsonInterval(f, n, root).lower > c <==> Exceeds(f, n, c)
  {
    var p, w, s, k, low := LowerScaled(f, n, root);
    CutoffRescaled(p, w, s, k, low, c);
    CountsFromRates(f, n, p, w, c);
  }

  lemma CutoffRescaled(p: real, w: real, s: real, k: real, low: real, c: real)
    requires Setting(p, w, s) && k == 1.0 + w && low * k == p + w / 2.0 - s && 0.0 <= c < 1.0
    ensures low > c <==> p > c && (p - c) * (p - c) > w * c * (1.0 - c)
  {
    AboveIff(p, w, s, c);
    var ck := c * (1.0 + w);
    Rescale(c, low, k, ck, p + w / 2.0 - s);
  }

  lemma ExceedsWithMoreFailures(f: nat, g: nat, n: nat, c: real)
    requires f <= g && Exceeds(f, n, c)
    ensures Exceeds(g, n, c)
  {
    SquareOrder(g as real - c * n as real, f as real - c * n as real);
  }

  lemma FewerAttempts(x: real, y: real, c: real, v: real, d: real, e: real)
    requires x <= y && c >= 0.0 && v >= 0.0
    requires d - e == c * y - c * x && e > 0.0 && e * e > v * y
    ensures d > 0.0 && d * d > v * x
  {
    var g := y - x;
    NonNegative(c, g);
    assert c * g == c * y - c * x;
    SquareOrder(d, e);
    NonNegative(v, g);
    assert v * g == v * y - v * x;
  }

  lemma ExceedsWithFewerAttempts(f: nat, m: nat, n: nat, c: real)
    requires m <= n && 0.0 <= c <= 1.0 && Exceeds(f, n, c)
    ensures Exceeds(f, m, c)
  {
    var x, y, v := m as real, n as real, Z * Z * c * (1.0 - c);
    NonNegative(c, 1.0 - c);
    assert v == Z * Z * (c * (1.0 - c));
    FewerAttempts(x, y, c, v, f as real - c * x, f as real - c * y);
  }

  /** More failures in as many attempts never lower the lower bound. */
  lemma LowerRisesWithFailures(f: nat, g: nat, n: nat, root: real, root': real)
    requires 0 < n && f <= g <= n
    requires IsRoot(root, Discriminant(f, n)) && IsRoot(root', Discriminant(g, n))
    ensures WilsonInterval(f, n, root).lower <= WilsonInterval(g, n, root').lower
  {
    var c := WilsonInterval(g, n, root').lower;
    ClampsAreRedundant(f, n, root);
    ClampsAreRedundant(g, n, root');
    RateInRange(f, n);
    if c < WilsonInterval(f, n, root).lower {
      LowerExceedsIff(f, n, root, c);
      ExceedsWithMoreFailures(f, g, n, c);
      LowerExceedsIff(g, n, root', c);
      assert false;
    }
  }

  /** As many failures in more attempts never raise the lower bound. */
  lemma LowerFallsWithAttempts(f: nat, m: nat, n: nat, root: real, root': real)
    requires 0 < m <= n && f <= m
    requires IsRoot(root, Discriminant(f, m)) && IsRoot(root', Discriminant(f, n))
    ensures WilsonInterval(f, n, root').lower <= WilsonInterval(f, m, root).lower
  {
    var c := WilsonInterval(f, m, root).lower;
    ClampsAreRedundant(f, m, root);
    ClampsAreRedundant(f, n, root');
    RateInRange(f, n);
    if c < WilsonInterval(f, n, root').lower {
      LowerExceedsIff(f, n, root', c);
      ExceedsWithFewerAttempts(f, m, n, c);
      LowerExceedsIff(f, m, root, c);
      assert false;
    }
  }

  /** Counting successes instead of failures mirrors the interval. */
  lemma IntervalIsMirrored(f: nat, n: nat, root: real)
    requires 0 < n && f <= n && IsRoot(root, Discriminant(f, n))
    ensures IsRoot(root, Discriminant(n - f, n))
    ensures WilsonInterval(f, n, root).upper == 1.0 - WilsonInterval(n - f, n, root).lower
  {
    var p, w, s := Rate(f, n), Weight(n), Z * root;
    var k, low, high := 1.0 + w, Center(f, n) - Margin(n, root), Center(f, n) + Margin(n, root);
    EndsInSetting(f, n, root, p, w, s, k, low, high);
    RateInRange(f, n);
    var g := n - f;
    MirroredRate(f, g, n);
    var low', high' := Center(g, n) - Margin(n, root), Center(g, n) + Margin(n, root);
    EndsInSetting(g, n, root, 1.0 - p, w, s, k, low', high');
    ClampsAreRedundant(f, n, root);
    ClampsAreRedundant(g, n, root);
    MirroredEnds(p, w, s, k, high, low');
  }

  lemma MirroredRate(f: nat, g: nat, n: nat)
    requires 0 < n && f + g == n
    ensures Rate(g, n) == 1.0 - Rate(f, n)
    ensures Discriminant(g, n) == Discriminant(f, n)
  {
    var m, x, y := n as real, Rate(f, n), Rate(g, n);
    RateInRange(f, n);
    RateInRange(g, n);
    SumIsOne(x, y, m, f as real, g as real);
    assert y * (1.0 - y) == x * (1.0 - x);
  }

  lemma SumIsOne(x: real, y: real, m: real, a: real, b: real)
    requires m > 0.0 && x * m == a && y * m == b && a + b == m
    ensures y == 1.0 - x
  {
    var d := x + y - 1.0;
    assert m * d == x * m + y * m - m;
    ProductSign(m, d);
    var e := -d;
    assert m * e == 0.0;
    ProductSign(m, e);
  }

  lemma MirroredEnds(p: real, w: real, s: real, k: real, high: real, low: real)
    requires k == 1.0 + w && w > 0.0
    requires high * k == p + w / 2.0 + s && low * k == (1.0 - p) + w / 2.0 - s
    ensures high == 1.0 - low
  {
    var d := high - (1.0 - low);
    assert d * k == high * k + low * k - k;
    if d > 0.0 { ProductSign(k, d); }
    if d < 0.0 { ProductSign(k, -d); }
  }

  // ------------------------------------------------ the classifier

  /** What a comparison with any cutoff amounts to, for any number of attempts. */
  predicate Above(f: nat, n: nat, c: real)
  {
    c < 0.0 || (c < 1.0 && n > 0 && Exceeds(f, n, c))
  }

  lemma LowerAboveIff(f: nat, n: nat, root: real, c: real)
    requires f <= n && (n > 0 ==> IsRoot(root, Discriminant(f, n)))
    ensures WilsonInterval(f, n, root).lower > c <==> Above(f, n, c)
  {
    if n > 0 {
      if 0.0 <= c < 1.0 {
        LowerExceedsIff(f, n, root, c);
      } else {
        ClampsAreRedundant(f, n, root);
        RateInRange(f, n);
      }
    }
  }

  /** The whole decision without a root, for all thresholds: at most one verdict, and
      which one. */
  lemma ClassifyIff(f: nat, n: nat, root: real, t: Threshold)
    requires f <= n && (n > 0 ==> IsRoot(root, Discriminant(f, n)))
    ensures var d := Classify(f, n, root, t);
            && (d.insufficient <==> n < t.minSamples)
            && (d.isBroken <==> n >= t.minSamples && Above(f, n, t.brokenCutoff))
            && (d.isFlaky <==> n >= t.minSamples && Above(f, n, t.flakyCutoff) && !Above(f, n, t.brokenCutoff))
  {
    LowerAboveIff(f, n, root, t.brokenCutoff);
    LowerAboveIff(f, n, root, t.flakyCutoff);
  }

  /** The decision reports what it was asked about, and with enough samples the rate and
      the interval it was made from. */
  lemma ClassifyReports(f: nat, n: nat, root: real, t: Threshold)
    ensures var d := Classify(f, n, root, t);
            && d.attempts == n && d.failures == f
            && (n >= t.minSamples ==> d.interval == WilsonInterval(f, n, root))
            && (n >= t.minSamples && n > 0 ==> d.failureRate == Some(f as real / n as real))
            && (n < t.minSamples ==> d.interval == Interval(0.0, 0.0) && !d.isFlaky && !d.isBroken)
  {
  }

  function Severity(d: Decision): nat
  {
    if d.isBroken then 2 else if d.isFlaky then 1 else 0
  }

  /** More failures never make a test look healthier. */
  lemma SeverityRisesWithFailures(f: nat, g: nat, n: nat, root: real, root': real, t: Threshold)
    requires f <= g <= n
    requires n > 0 ==> IsRoot(root, Discriminant(f, n)) && IsRoot(root', Discriminant(g, n))
    ensures Severity(Classify(f, n, root, t)) <= Severity(Classify(g, n, root', t))
  {
    if n > 0 { LowerRisesWithFailures(f, g, n, root, root'); }
  }

  /** With the default thresholds the verdict is a test on integers. */
  lemma DefaultInIntegers(f: nat, n: nat, root: real)
    requires 0 < n && f <= n && IsRoot(root, Discriminant(f, n))
    ensures var d := Classify(f, n, root, DEFAULT);
            var flaky, broken := 20 * f - n, 10 * f - 9 * n;
            && (d.isBroken <==> n >= 20 && broken > 0 && 625 * broken * broken > 21609 * n)
            && (d.isFlaky <==> n >= 20 && !d.isBroken && flaky > 0 && 625 * flaky * flaky > 45619 * n)
  {
    ClassifyIff(f, n, root, DEFAULT);
    IntegerTest(f, n, 20, 1, 0.05, 45619);
    IntegerTest(f, n, 10, 9, 0.90, 21609);
  }

  lemma IntegerTest(f: nat, n: nat, scale: nat, part: nat, c: real, k: nat)
    requires scale > 0 && c * scale as real == part as real
    requires Z * Z * c * (1.0 - c) * (scale as real * scale as real) * 625.0 == k as real
    ensures var e := scale * f - part * n;
            Exceeds(f, n, c) <==> e > 0 && 625 * e * e > k * n
  {
    var a, m := scale as real, n as real;
    var d, e, v := f as real - c * m, scale * f - part * n, Z * Z * c * (1.0 - c);
    ExceedsAsReals(f, n, c, d, v, m);
    ProductsAsReals(scale, part, f, n, e);
    ScaleRelations(a, c, f as real, part as real, m, d, e as real);
    ScaledTest(a, d, v, m, e as real, k as real);
    IntegersAsReals(e, k, n, e as real, k as real, m);
  }

  lemma ExceedsAsReals(f: nat, n: nat, c: real, d: real, v: real, m: real)
    requires m == n as real && d == f as real - c * m && v == Z * Z * c * (1.0 - c)
    ensures Exceeds(f, n, c) <==> d > 0.0 && d * d > v * m
  {
  }

  lemma ScaleRelations(a: real, c: real, f: real, part: real, m: real, d: real, e: real)
    requires d == f - c * m && e == a * f - part * m && c * a == part
    ensures e == a * d
  {
    assert part * m == a * (c * m);
  }

  lemma IntegersAsReals(e: int, k: int, n: int, er: real, kr: real, m: real)
    requires er == e as real && kr == k as real && m == n as real
    ensures e > 0 && 625 * e * e > k * n <==> er > 0.0 && 625.0 * er * er > kr * m
  {
    SquareAsReal(e, 625);
    ProductAsReal(k, n);
  }

  lemma ProductAsReal(k: int, n: int)
    ensures (k * n) as real == k as real * n as real
  {
  }

  lemma SquareAsReal(e: int, k: int)
    ensures (k * e * e) as real == k as real * e as real * e as real
  {
    ProductAsReal(k, e);
    ProductAsReal(k * e, e);
  }

  lemma ProductsAsReals(scale: int, part: int, f: int, n: int, e: int)
    requires e == scale * f - part * n
    ensures e as real == scale as real * f as real - part as real * n as real
  {
    ProductAsReal(scale, f);
    ProductAsReal(part, n);
  }

  lemma ScaledTest(a: real, d: real, v: real, m: real, e: real, k: real)
    requires a > 0.0 && e == a * d && v * (a * a) * 625.0 == k
    ensures d > 0.0 && d * d > v * m <==> e > 0.0 && 625.0 * e * e > k * m
  {
    ProductSign(a, d);
    var x, y := v * m, d * d;
    var xaa, yaa := v * (a * a) * m, e * e;
    ScaleTwice(x, y, a, xaa, yaa);
    assert k * m == 625.0 * xaa;
  }
}
