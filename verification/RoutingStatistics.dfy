/** The Wilson interval and the interpolated percentile of the routing evaluation, over exact reals. */
module RoutingStatistics {
  import opened Bytes

  // ---------- the Wilson interval ----------

  const Z: real := 1.959963984540054

  /** What `math.sqrt` returns, exactly. */
  predicate IsRoot(s: real, x: real) {
    s >= 0.0 && s * s == x
  }

  function Rate(successes: int, total: int): real
    requires total > 0
  {
    successes as real / total as real
  }

  /** What the margin takes the root of. */
  function UnderRoot(successes: int, total: int): real
    requires total > 0
  {
    var n, p := total as real, Rate(successes, total);
    p * (1.0 - p) / n + Z * Z / (4.0 * n * n)
  }

  function Center(successes: int, total: int): real
    requires total > 0
  {
    var n := total as real;
    (Rate(successes, total) + Z * Z / (2.0 * n)) / (1.0 + Z * Z / n)
  }

  function Margin(total: int, root: real): real
    requires total > 0
  {
    Z * root / (1.0 + Z * Z / total as real)
  }

  /** `_wilson_interval` before rounding, clamps included; None for no cases. */
  function WilsonInterval(successes: int, total: int, root: real): Option<(real, real)>
    requires total >= 0
  {
    if total == 0 then None
    else
      var low, high := Center(successes, total) - Margin(total, root), Center(successes, total) + Margin(total, root);
      Some((if low > 0.0 then low else 0.0, if high < 1.0 then high else 1.0))
  }

  lemma Sign(x: real, k: real)
    requires k > 0.0
    ensures x > 0.0 <==> k * x > 0.0
    ensures x == 0.0 <==> k * x == 0.0
  {
    if x < 0.0 {
      assert k * (-x) > 0.0;
    }
  }

  lemma SquaresOrder(x: real, y: real)
    requires x >= 0.0 && y >= 0.0
    ensures x * x >= y * y <==> x >= y
  {
    if x < y {
      assert y * y - x * x == (y + x) * (y - x);
      Sign(y - x, y + x);
    } else {
      assert x * x >= x * y >= y * y;
    }
  }

  /**
   With rate `a`, `w` for z*z/n and `r` for z*root: the square of `r` is short of the squares of `a + w/2` and
   `1 - a + w/2`, and not short of that of `w*(a - 1/2)`.
   */
  lemma WilsonSquares(a: real, w: real, r: real)
    requires 0.0 <= a <= 1.0 && w > 0.0 && r * r == a * (1.0 - a) * w + w * w / 4.0
    ensures (a + w / 2.0) * (a + w / 2.0) - r * r == a * a * (1.0 + w)
    ensures (1.0 - a + w / 2.0) * (1.0 - a + w / 2.0) - r * r == (1.0 - a) * (1.0 - a) * (1.0 + w)
    ensures r * r - (w * (a - 0.5)) * (w * (a - 0.5)) == a * (1.0 - a) * (w * (1.0 + w))
  {
  }

  lemma Nonnegative(x: real, y: real)
    requires x >= 0.0 && y >= 0.0
    ensures x * y >= 0.0
  {
  }

  /** The same three facts for the numbers themselves, with the cases of equality. */
  lemma WilsonBounds(a: real, w: real, r: real)
    requires 0.0 <= a <= 1.0 && w > 0.0 && r >= 0.0 && r * r == a * (1.0 - a) * w + w * w / 4.0
    ensures r <= a + w / 2.0 && (r == a + w / 2.0 <==> a == 0.0)
    ensures r <= 1.0 - a + w / 2.0 && (r == 1.0 - a + w / 2.0 <==> a == 1.0)
    ensures -r <= w * (a - 0.5) <= r
  {
    WilsonSquares(a, w, r);
    var x, y := a + w / 2.0, 1.0 - a + w / 2.0;
    Below(x, r, a, 1.0 + w);
    Below(y, r, 1.0 - a, 1.0 + w);
    var d := w * (a - 0.5);
    Nonnegative(a, 1.0 - a);
    Nonnegative(w, 1.0 + w);
    Nonnegative(a * (1.0 - a), w * (1.0 + w));
    assert r * r >= d * d;
    if d >= 0.0 {
      SquaresOrder(r, d);
    } else {
      assert d * d == (-d) * (-d);
      SquaresOrder(r, -d);
    }
  }

  lemma Below(x: real, r: real, b: real, k: real)
    requires x > 0.0 && r >= 0.0 && b >= 0.0 && k > 0.0 && x * x - r * r == b * b * k
    ensures r <= x && (r == x <==> b == 0.0)
  {
    Nonnegative(b, b);
    Nonnegative(b * b, k);
    SquaresOrder(x, r);
    SquaresOrder(r, x);
    Sign(b * b, k);
    if b > 0.0 {
      Sign(b, b);
    }
  }

  /** The interval in the terms of `WilsonBounds`. */
  lemma WilsonTerms(successes: int, total: int, root: real)
    requires 0 <= successes <= total && total > 0 && IsRoot(root, UnderRoot(successes, total))
    ensures var a, w, r := Rate(successes, total), Z * Z / total as real, Z * root;
            && 0.0 <= a <= 1.0 && w > 0.0 && r >= 0.0 && r * r == a * (1.0 - a) * w + w * w / 4.0
            && Center(successes, total) == (a + w / 2.0) / (1.0 + w) && Margin(total, root) == r / (1.0 + w)
  {
    var n, a := total as real, Rate(successes, total);
    RateIsFraction(successes, total);
    var w := Z * Z / n;
    assert Z * Z / (2.0 * n) == w / 2.0;
    RootScaled(a, n, root);
  }

  lemma RateIsFraction(successes: int, total: int)
    requires 0 <= successes <= total && total > 0
    ensures 0.0 <= Rate(successes, total) <= 1.0
    ensures Rate(successes, total) == 0.0 <==> successes == 0
    ensures Rate(successes, total) == 1.0 <==> successes == total
  {
    var k, n := successes as real, total as real;
    assert Rate(successes, total) * n == k;
  }

  lemma RootScaled(a: real, n: real, root: real)
    requires n > 0.0 && root * root == a * (1.0 - a) / n + Z * Z / (4.0 * n * n)
    ensures var w := Z * Z / n; (Z * root) * (Z * root) == a * (1.0 - a) * w + w * w / 4.0
  {
    var z2, w := Z * Z, Z * Z / n;
    assert (Z * root) * (Z * root) == z2 * (root * root);
    assert z2 * (a * (1.0 - a) / n) == a * (1.0 - a) * w;
    Quarter(z2, n);
  }

  lemma Quarter(z2: real, n: real)
    requires n > 0.0
    ensures z2 * (z2 / (4.0 * n * n)) == (z2 / n) * (z2 / n) / 4.0
  {
    var w := z2 / n;
    assert z2 == w * n;
    var q := z2 / (4.0 * n * n);
    assert q * (4.0 * n * n) == z2;
    assert n * (q * (4.0 * n) - w) == 0.0;
    assert q * (4.0 * n) == w;
    assert z2 * q == w * (n * q);
    assert n * q == w / 4.0;
  }

  lemma Scaled(x: real, r: real, d: real)
    requires d > 0.0
    ensures d * (x / d - r / d) == x - r && d * (x / d + r / d) == x + r
  {
    var u, v := x / d, r / d;
    assert d * u == x && d * v == r;
  }

  /**
   In exact arithmetic the interval holds the observed rate and lies between 0 and 1, so that the clamps do
   nothing; it touches 0 only without successes, and 1 only without failures.
   */
  lemma WilsonHoldsTheRate(successes: int, total: int, root: real)
    requires 0 <= successes <= total && total > 0 && IsRoot(root, UnderRoot(successes, total))
    ensures var low, high := Center(successes, total) - Margin(total, root), Center(successes, total) + Margin(total, root);
            && WilsonInterval(successes, total, root) == Some((low, high))
            && 0.0 <= low <= Rate(successes, total) <= high <= 1.0
            && (low == 0.0 <==> successes == 0) && (high == 1.0 <==> successes == total)
  {
    WilsonTerms(successes, total, root);
    RateIsFraction(successes, total);
    var a, w, r := Rate(successes, total), Z * Z / total as real, Z * root;
    WilsonBounds(a, w, r);
    WilsonShape(a, w, r);
  }

  lemma WilsonShape(a: real, w: real, r: real)
    requires 0.0 <= a <= 1.0 && w > 0.0 && r >= 0.0
    requires r <= a + w / 2.0 && r <= 1.0 - a + w / 2.0 && -r <= w * (a - 0.5) <= r
    ensures var low, high := (a + w / 2.0) / (1.0 + w) - r / (1.0 + w), (a + w / 2.0) / (1.0 + w) + r / (1.0 + w);
            && 0.0 <= low <= a <= high <= 1.0
            && (low == 0.0 <==> r == a + w / 2.0) && (high == 1.0 <==> r == 1.0 - a + w / 2.0)
  {
    var d, x := 1.0 + w, a + w / 2.0;
    Scaled(x, r, d);
    Placed(x / d - r / d, x / d + r / d, a, w, r);
  }

  lemma Placed(low: real, high: real, a: real, w: real, r: real)
    requires 0.0 <= a <= 1.0 && w > 0.0
    requires r <= a + w / 2.0 && r <= 1.0 - a + w / 2.0 && -r <= w * (a - 0.5) <= r
    requires (1.0 + w) * low == a + w / 2.0 - r && (1.0 + w) * high == a + w / 2.0 + r
    ensures 0.0 <= low <= a <= high <= 1.0
    ensures (low == 0.0 <==> r == a + w / 2.0) && (high == 1.0 <==> r == 1.0 - a + w / 2.0)
  {
    var d := 1.0 + w;
    assert d * (a - low) == w * (a - 0.5) + r;
    assert d * (high - a) == r - w * (a - 0.5);
    assert d * (1.0 - high) == 1.0 - a + w / 2.0 - r;
    Sign(low, d);
    Sign(a - low, d);
    Sign(high - a, d);
    Sign(1.0 - high, d);
  }

  /** A true rate that lies as far from the observed one as the normal approximation allows at 95 percent. */
  predicate OnTheEdge(x: real, successes: int, total: int)
    requires total > 0
  {
    var p, n := successes as real / total as real, total as real;
    (p - x) * (p - x) * n == 1.959963984540054 * 1.959963984540054 * (x * (1.0 - x))
  }

  /** Both ends of the interval are on the edge. */
  lemma WilsonEndsAreOnTheEdge(successes: int, total: int, root: real)
    requires 0 <= successes <= total && total > 0 && IsRoot(root, UnderRoot(successes, total))
    ensures var i := WilsonInterval(successes, total, root);
            i.Some? && OnTheEdge(i.value.0, successes, total) && OnTheEdge(i.value.1, successes, total)
  {
    hide Center, Margin, UnderRoot, IsRoot, WilsonInterval, Rate, OnTheEdge;
    WilsonHoldsTheRate(successes, total, root);
    WilsonTerms(successes, total, root);
    var low, high := Center(successes, total) - Margin(total, root), Center(successes, total) + Margin(total, root);
    EndsOnEdge(Rate(successes, total), Z * Z / total as real, Z * root, total as real, low, high);
    EdgeMeans(low, successes, total);
    EdgeMeans(high, successes, total);
  }

  lemma EdgeMeans(x: real, successes: int, total: int)
    requires total > 0
    ensures var a, n := Rate(successes, total), total as real;
            OnTheEdge(x, successes, total) <==> (a - x) * (a - x) * n == Z * Z * (x * (1.0 - x))
  {
  }

  lemma EndsOnEdge(a: real, w: real, r: real, n: real, low: real, high: real)
    requires n > 0.0 && w > 0.0 && w == Z * Z / n && r * r == a * (1.0 - a) * w + w * w / 4.0
    requires low == (a + w / 2.0) / (1.0 + w) - r / (1.0 + w) && high == (a + w / 2.0) / (1.0 + w) + r / (1.0 + w)
    ensures (a - low) * (a - low) * n == Z * Z * (low * (1.0 - low))
    ensures (a - high) * (a - high) * n == Z * Z * (high * (1.0 - high))
  {
    Scaled(a + w / 2.0, r, 1.0 + w);
    Negated(r);
    OneEnd(a, w, r, n, low);
    OneEnd(a, w, -r, n, high);
  }

  lemma Negated(r: real)
    ensures (-r) * (-r) == r * r
  {
  }

  lemma OneEnd(a: real, w: real, r: real, n: real, x: real)
    requires n > 0.0 && w > 0.0 && w == Z * Z / n && r * r == a * (1.0 - a) * w + w * w / 4.0
    requires (1.0 + w) * x == a + w / 2.0 - r
    ensures (a - x) * (a - x) * n == Z * Z * (x * (1.0 - x))
  {
    Edge(a, w, r, x);
    ScaleUp(a, w, x, n);
  }

  lemma Edge(a: real, w: real, r: real, x: real)
    requires w > 0.0 && r * r == a * (1.0 - a) * w + w * w / 4.0
    requires (1.0 + w) * x == a + w / 2.0 - r
    ensures (a - x) * (a - x) == w * (x * (1.0 - x))
  {
    var d, h := 1.0 + w, a + w / 2.0;
    var y := d * x;
    assert (h - y) * (h - y) == r * r;
    assert r * r == h * h - a * a * d by { EdgeSquare(a, w); }
    assert y * y - 2.0 * h * y + a * a * d == 0.0 by { Square(h, y); }
    assert d * (d * (x * x) - 2.0 * h * x + a * a) == y * y - 2.0 * h * y + a * a * d by { Distribute(d, x, h, a); }
    Sign(d * (x * x) - 2.0 * h * x + a * a, d);
    assert (a - x) * (a - x) - w * (x * (1.0 - x)) == d * (x * x) - 2.0 * h * x + a * a by { Expand(a, w, x); }
  }

  lemma EdgeSquare(a: real, w: real)
    ensures a * (1.0 - a) * w + w * w / 4.0 == (a + w / 2.0) * (a + w / 2.0) - a * a * (1.0 + w)
  {
  }

  lemma Square(h: real, y: real)
    ensures (h - y) * (h - y) == h * h - 2.0 * h * y + y * y
  {
  }

  lemma Distribute(d: real, x: real, h: real, a: real)
    ensures d * (d * (x * x) - 2.0 * h * x + a * a) == (d * x) * (d * x) - 2.0 * h * (d * x) + a * a * d
  {
  }

  lemma Expand(a: real, w: real, x: real)
    ensures (a - x) * (a - x) - w * (x * (1.0 - x)) == (1.0 + w) * (x * x) - 2.0 * (a + w / 2.0) * x + a * a
  {
  }

  lemma ScaleUp(a: real, w: real, x: real, n: real)
    requires n > 0.0 && w == Z * Z / n && (a - x) * (a - x) == w * (x * (1.0 - x))
    ensures (a - x) * (a - x) * n == Z * Z * (x * (1.0 - x))
  {
    assert w * n == Z * Z;
    var q := x * (1.0 - x);
    assert w * q * n == (w * n) * q;
  }

  // ---------- the interpolated percentile ----------

  predicate Sorted(values: seq<real>) {
    forall i, j :: 0 <= i < j < |values| ==> values[i] <= values[j]
  }

  function Ceiling(x: real): int {
    -((-x).Floor)
  }

  /** The value at a fractional rank. */
  function Interpolated(values: seq<real>, rank: real): real
    requires 0.0 <= rank <= (|values| - 1) as real
  {
    var lower, upper := rank.Floor, Ceiling(rank);
    if lower == upper then values[lower]
    else values[lower] + (values[upper] - values[lower]) * (rank - lower as real)
  }

  /** The fractional rank of a quantile, of places 0 to `last`. */
  function RankOf(last: int, quantile: real): (rank: real)
    requires last >= 0 && 0.0 <= quantile <= 1.0
    ensures 0.0 <= rank <= last as real
  {
    Nonnegative(last as real, quantile);
    Nonnegative(last as real, 1.0 - quantile);
    assert last as real * (1.0 - quantile) == last as real - last as real * quantile;
    last as real * quantile
  }

  /** `_percentile` of a sorted, nonempty list. */
  function Percentile(values: seq<real>, quantile: real): real
    requires values != [] && 0.0 <= quantile <= 1.0
  {
    if |values| == 1 then values[0] else Interpolated(values, RankOf(|values| - 1, quantile))
  }

  /** The place between two neighbours. */
  function Between(low: real, high: real, part: real): real {
    low + (high - low) * part
  }

  lemma BetweenBounds(low: real, high: real, f: real, g: real)
    requires low <= high && 0.0 <= f <= g <= 1.0
    ensures low <= Between(low, high, f) <= Between(low, high, g) <= high
  {
    var gap := high - low;
    Nonnegative(gap, f);
    Nonnegative(gap, g - f);
    Nonnegative(gap, 1.0 - g);
    assert gap * (g - f) == gap * g - gap * f && gap * (1.0 - g) == gap - gap * g;
  }

  /** The value at a rank lies on the segment from its floor to the next place. */
  lemma OnSegment(values: seq<real>, rank: real)
    requires 0.0 <= rank <= (|values| - 1) as real
    ensures var k, v := rank.Floor, Interpolated(values, rank);
            && 0 <= k < |values| && 0.0 <= rank - k as real < 1.0
            && (k + 1 < |values| ==> v == Between(values[k], values[k + 1], rank - k as real))
            && (k + 1 == |values| ==> v == values[k])
  {
    var k := rank.Floor;
    if rank == k as real && k + 1 < |values| {
      assert (values[k + 1] - values[k]) * 0.0 == 0.0;
    }
  }

  lemma InterpolatedIsMonotone(values: seq<real>, x: real, y: real)
    requires Sorted(values) && 0.0 <= x <= y <= (|values| - 1) as real
    ensures values[0] <= Interpolated(values, x) <= Interpolated(values, y) <= values[|values| - 1]
  {
    OnSegment(values, x);
    OnSegment(values, y);
    hide Interpolated, Between;
    var i, j := x.Floor, y.Floor;
    if i + 1 < |values| {
      BetweenBounds(values[i], values[i + 1], x - i as real, if i == j then y - j as real else 1.0);
    }
    if j + 1 < |values| {
      BetweenBounds(values[j], values[j + 1], y - j as real, 1.0);
    }
  }

  /** A percentile is monotone in the quantile, starts at the first value and ends at the last. */
  lemma PercentileIsMonotone(values: seq<real>, p: real, q: real)
    requires values != [] && Sorted(values) && 0.0 <= p <= q <= 1.0
    ensures values[0] <= Percentile(values, p) <= Percentile(values, q) <= values[|values| - 1]
    ensures Percentile(values, 0.0) == values[0] && Percentile(values, 1.0) == values[|values| - 1]
  {
    hide Interpolated, RankOf;
    if |values| > 1 {
      RanksOrdered(|values| - 1, p, q);
      InterpolatedIsMonotone(values, RankOf(|values| - 1, p), RankOf(|values| - 1, q));
      EndsAreSamples(values);
    }
  }

  lemma RanksOrdered(last: int, p: real, q: real)
    requires last >= 0 && 0.0 <= p <= q <= 1.0
    ensures RankOf(last, p) <= RankOf(last, q)
  {
    var m := last as real;
    Nonnegative(m, q - p);
    assert m * (q - p) == m * q - m * p;
  }

  lemma EndsAreSamples(values: seq<real>)
    requires |values| > 1
    ensures Interpolated(values, RankOf(|values| - 1, 0.0)) == values[0]
    ensures Interpolated(values, RankOf(|values| - 1, 1.0)) == values[|values| - 1]
  {
  }

  /** A percentile lies on the segment between the two places next to the quantile's share of the last one. */
  lemma PercentileIsLinear(values: seq<real>, quantile: real)
    requires |values| > 1 && 0.0 <= quantile <= 1.0
    ensures var rank := (|values| - 1) as real * quantile;
            var k := rank.Floor;
            && 0 <= k < |values|
            && (k + 1 < |values| ==>
                  Percentile(values, quantile) == values[k] + (values[k + 1] - values[k]) * (rank - k as real))
            && (k + 1 == |values| ==> Percentile(values, quantile) == values[k])
  {
    var rank := RankOf(|values| - 1, quantile);
    OnSegment(values, rank);
    PercentileIsValue(values, quantile, rank);
    assert rank == (|values| - 1) as real * quantile;
    hide Percentile, Interpolated, RankOf;
  }

  lemma PercentileIsValue(values: seq<real>, quantile: real, rank: real)
    requires |values| > 1 && 0.0 <= quantile <= 1.0 && rank == RankOf(|values| - 1, quantile)
    ensures Percentile(values, quantile) == Interpolated(values, rank)
  {
    hide Interpolated, RankOf;
  }
}
