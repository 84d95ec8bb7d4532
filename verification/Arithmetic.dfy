/** Facts about products and quotients of integers and reals, one at a time. */
module Arithmetic {

  type Pos = n: nat | n > 0 witness 1

  type PosReal = r: real | r > 0.0 witness 1.0

  // ---------- integers ----------

  lemma {:induction false} MulAdd(a: int, b: int, i: int)
    ensures (a + b) * i == a * i + b * i
  {
  }

  lemma {:induction false} MulAssoc(d: int, q: int, i: int, k: int)
    requires k == q * i
    ensures d * k == d * q * i
  {
  }

  lemma {:induction false} MulMonotone(a: int, b: int, i: int)
    requires a <= b && 0 <= i
    ensures a * i <= b * i
  {
  }

  lemma {:induction false} MulOrder(k: int, q: int, i: int)
    requires 0 < i && k * i < q * i
    ensures k < q
  {
    if k >= q {
      MulMonotone(q, k, i);
    }
  }

  lemma {:induction false} MulAtLeast(k: int, n: nat)
    requires k >= 1
    ensures k * n >= n
  {
    assert k * n == (k - 1) * n + n;
  }

  /** Quotient and remainder are determined by any decomposition with a small remainder. */
  lemma {:induction false} DivModUnique(w: int, q: int, span: nat, r: nat)
    requires r < span && w == q * span + r
    ensures w / span == q && w % span == r
  {
    var d := w / span;
    assert w == d * span + w % span;
    assert (d - q) * span == r - w % span;
    if d > q {
      MulAtLeast(d - q, span);
    } else if d < q {
      MulAtLeast(q - d, span);
    }
  }

  lemma {:induction false} QuotientBelow(e: int, q: int, i: int)
    requires 0 < i && 0 <= e < q * i
    ensures 0 <= e / i < q
  {
    var k := e / i;
    assert e == k * i + e % i;
    MulOrder(k, q, i);
  }

  lemma {:induction false} QuotientMonotone(x: int, y: int, i: int)
    requires 0 < i && x <= y
    ensures x / i <= y / i
  {
    if y / i < x / i {
      MulMonotone(y / i + 1, x / i, i);
      MulAdd(y / i, 1, i);
    }
  }

  lemma {:induction false} Truncated(x: int, d: int)
    requires d > 0
    ensures x / d * d <= x < x / d * d + d
  {
  }

  lemma {:induction false} ShiftedMultiple(k: int, y: int, d: int, x: int)
    requires d > 0 && x == k * d - y
    ensures x % d == 0 <==> y % d == 0
  {
    var a, r := y / d, y % d;
    assert y == a * d + r;
    MulAdd(k - a, a, d);
    assert x == (k - a) * d - r;
    if r == 0 {
      DivModUnique(x, k - a, d, 0);
    } else {
      MulAdd(k - a - 1, 1, d);
      DivModUnique(x, k - a - 1, d, d - r);
    }
  }

  lemma {:induction false} LastDigit(n: nat)
    ensures n == n / 10 * 10 + n % 10
  {
  }

  // ---------- reals ----------

  lemma {:induction false} CombineProducts(total: real, a: real, b: real, w: real, x: real, y: real)
    requires total == a + b && x == a * w && y == b * w
    ensures x + y == total * w
  {
  }

  lemma {:induction false} SignOfFactor(d: real, t: real)
    requires t > 0.0 && d * t >= 0.0
    ensures d >= 0.0
  {
  }

  lemma {:induction false} ShareBetween(part: real, n: real, total: real)
    requires total > 0.0 && 0.0 <= part <= total && n > 0.0
    ensures 0.0 <= part * n / total <= n
  {
    var x := part * n / total;
    assert x * total == part * n >= 0.0;
    SignOfFactor(x, total);
    assert (n - x) * total == (total - part) * n >= 0.0;
    SignOfFactor(n - x, total);
  }

  lemma {:induction false} SplitShare(a: real, w: real, n: real, total: real)
    requires total > 0.0
    ensures (a + w) * n / total == a * n / total + w * n / total
  {
    assert (a + w) * n == a * n + w * n;
  }

  lemma {:induction false} Rotate(c: real, u: real, t: real, t2: real)
    requires t2 == c * t
    ensures u * t2 == c * (u * t)
  {
  }

  lemma {:induction false} CompareScaled(c: real, a: real, b: real, a2: real, b2: real)
    requires c > 0.0 && a2 == c * a && b2 == c * b
    ensures a >= b <==> a2 >= b2
  {
    var d := a - b;
    assert a2 - b2 == c * d;
    if d > 0.0 {
      ProductPositive(c, d);
    } else if d < 0.0 {
      ProductPositive(c, -d);
    }
  }

  lemma {:induction false} FloorIs(x: real, k: int)
    ensures k as real > x <==> k > x.Floor
    ensures x.Floor as real <= x < x.Floor as real + 1.0
  {
  }

  lemma {:induction false} SplitRatio(a: real, b: real, total: real)
    requires total > 0.0
    ensures (a + b) / total == a / total + b / total
  {
  }

  lemma {:induction false} ProductOfRatios(a: real, b: real, c: real, d: real)
    requires b > 0.0 && d > 0.0
    ensures b * d > 0.0 && a / b * (c / d) == a * c / (b * d)
  {
    var x, y := a / b, c / d;
    assert x * b == a && y * d == c;
    assert x * y * (b * d) == (x * b) * (y * d);
  }

  lemma {:induction false} RatioPositive(a: real, b: real)
    requires a > 0.0 && b > 0.0
    ensures a / b > 0.0
  {
  }

  lemma {:induction false} ProductPositive(a: real, b: real)
    requires a > 0.0 && b > 0.0
    ensures a * b > 0.0
  {
  }

  lemma {:induction false} MixAtLeast(share: real, s: real, f: real)
    requires 0.0 < s <= 100.0 && share > 0.0 && f > 0.0
    ensures 1.0 + f * (share / s - 1.0) >= (100.0 - f * (100.0 - share)) / 100.0
  {
    var c := share / s;
    assert c * s == share;
    RatioPositive(share, s);
    Nonnegative(c, 100.0 - s);
    assert c * (100.0 - s) == c * 100.0 - share;
    Nonnegative(f, c - share / 100.0);
    assert f * (c - share / 100.0) == f * (c - 1.0) + f * (100.0 - share) / 100.0;
  }

  lemma {:induction false} AddShares(a: real, b: real, total: real)
    ensures (a + b) * total / 100.0 == a * total / 100.0 + b * total / 100.0
  {
    assert (a + b) * total == a * total + b * total;
  }

  lemma {:induction false} EqualRatios(t: real, tt: real, total: real, a: real, b: real)
    requires total > 0.0 && a == t * total / 100.0 && b == tt * total / 100.0 && b > 0.0
    ensures tt > 0.0 && a / b == t / tt
  {
    assert tt * total == b * 100.0 > 0.0;
    PositiveFactor(tt, total);
    var x, y := a / b, t / tt;
    assert x * b == a && y * tt == t;
    assert y * b == y * tt * total / 100.0;
    assert (x - y) * b == 0.0;
  }

  lemma {:induction false} PositiveFactor(a: real, total: real)
    requires total > 0.0 && a * total > 0.0
    ensures a > 0.0
  {
  }

  lemma {:induction false} AddNudges(n: real, share: real, total: real, factor: real, a: real, b: real)
    ensures (a + factor * (n * share * total / 100.0 - a)) + (b + factor * (share * total / 100.0 - b)) ==
              (a + b) + factor * ((n + 1.0) * share * total / 100.0 - (a + b))
  {
    var u := share * total / 100.0;
    assert n * share * total / 100.0 == n * u;
    assert (n + 1.0) * share * total / 100.0 == n * u + u;
  }

  lemma {:induction false} FullShare(n: real, share: real, total: real)
    requires n > 0.0 && share == 100.0 / n
    ensures n * share * total / 100.0 == total
  {
    assert n * share == 100.0;
  }

  lemma {:induction false} ScaledQuotient(a: real, t: real, s: real)
    requires s > 0.0
    ensures a * t / s == a * (t / s)
  {
  }

  lemma {:induction false} Interchange(c: real, w: real, a: real, d: real, g: real)
    requires d == c * a
    ensures c * w * (a * g) == d * (w * g)
  {
  }

  lemma {:induction false} Associate(c: real, w: real, g: real)
    ensures c * w * g == c * (w * g)
  {
  }

  lemma {:induction false} Distribute(c: real, x: real, y: real)
    ensures c * (x + y) == c * x + c * y
  {
  }

  lemma {:induction false} QuotientOrder(a: real, b: real, g: real)
    requires 0.0 < a <= b && 0.0 < g
    ensures 0.0 < a / g <= b / g
  {
  }

  lemma {:induction false} ProductOrder(a: real, b: real, g: real)
    requires a <= b && 0.0 < g
    ensures g * a <= g * b && a * g <= b * g
    ensures a > 0.0 ==> g * a > 0.0 && a * g > 0.0
  {
  }

  lemma {:induction false} ProductOrderOf(a: real, b: real, g: real, x: real, y: real)
    requires a <= b && 0.0 < g && x == a * g && y == b * g
    ensures x <= y
  {
  }

  lemma {:induction false} QuotientTimes(a: real, b: real, d: real)
    requires b > 0.0
    ensures a * d == a / b * (b * d)
  {
    assert a == a / b * b;
  }

  lemma {:induction false} FractionOrder(a: real, b: real, c: real, d: real)
    requires b > 0.0 && d > 0.0 && a * d <= c * b
    ensures a / b <= c / d
  {
    QuotientTimes(a, b, d);
    QuotientTimes(c, d, b);
    var x, y := a / b, c / d;
    assert b * d > 0.0;
    if x > y {
      ProductStrict(y, x, b * d);
    }
  }

  lemma {:induction false} ProductStrict(y: real, x: real, k: real)
    requires y < x && k > 0.0
    ensures y * k < x * k
  {
  }

  lemma {:induction false} CrossProducts(o: real, p: real, span: real)
    requires 0.0 < o <= p && 0.0 <= span
    ensures (span * o) * (p + span) <= (span * p) * (o + span)
  {
    var k := span * span;
    assert k >= 0.0;
    assert k * o <= k * p;
    assert (span * o) * (p + span) == span * o * p + k * o;
    assert (span * p) * (o + span) == span * o * p + k * p;
  }

  lemma {:induction false} BelowSpan(x: real, o: real, span: real)
    requires 0.0 < span && x * (o + span) == span * o
    ensures x != span
  {
    assert span * (o + span) == span * o + span * span;
    assert span * span > 0.0;
  }

  lemma {:induction false} Nonnegative(a: real, b: real)
    requires a >= 0.0 && b >= 0.0
    ensures a * b >= 0.0 && b * b >= 0.0 && a * a >= 0.0
  {
  }

  lemma {:induction false} ReciprocalSum(x: real, o: real, span: real)
    requires 0.0 < o && 0.0 < span && x * (o + span) == span * o
    ensures x > 0.0 && 1.0 / x == 1.0 / o + 1.0 / span
  {
    ProductSign(x, o + span, span * o);
    var a, b := 1.0 / o, 1.0 / span;
    assert a * o == 1.0 && b * span == 1.0;
    assert (a + b) * (span * o) == (a * o) * span + (b * span) * o;
    assert (a + b) * (x * (o + span)) == o + span;
    CancelFactor((a + b) * x, o + span);
  }

  lemma {:induction false} ProductSign(x: real, y: real, z: real)
    requires y > 0.0 && x * y == z && z > 0.0
    ensures x > 0.0
  {
  }

  lemma {:induction false} CancelFactor(z: real, y: real)
    requires y > 0.0 && z * y == y
    ensures z == 1.0
  {
  }

  lemma {:induction false} Regroup(x: real, y: real, g: real, p: real)
    ensures (x * y) * (g * p) == (x * p) * (y * g)
  {
  }

  lemma {:induction false} MergeFactors(x: real, y: real, g: real, p: real, z: real, s: real, xy: real, gp: real)
    requires x * p == z && y * g == s && xy == x * y && gp == g * p
    ensures xy * gp == z * s
  {
    Regroup(x, y, g, p);
  }

  lemma {:induction false} MergePowers(p: real, a: real, g: real, b: real, c: real, gp: real, ab: real,
                                          gb: real, all: real)
    requires c == p * a && gp == g * p && ab == a * b && gb == g * b && all == c * gb
    ensures all == gp * ab
  {
    Regroup(p, a, g, b);
    Regroup(g, p, a, b);
  }

  lemma {:induction false} UnitRatio(z: real, y: real, w: real)
    requires y > 0.0 && z * y == w && y == w
    ensures z == 1.0
  {
    CancelFactor(z, y);
  }

  lemma {:induction false} ReciprocalOfProduct(f: real, x: real)
    requires f > 0.0 && x > 0.0
    ensures f * x > 0.0 && 1.0 / (f * x) == 1.0 / f * (1.0 / x)
  {
    var a, b := 1.0 / f, 1.0 / x;
    assert a * f == 1.0 && b * x == 1.0;
    assert (a * b) * (f * x) == (a * f) * (b * x);
  }

  lemma {:induction false} Undo(o: real, target: real, f: real)
    requires o > 0.0 && target > 0.0 && f == o / target
    ensures f > 0.0 && 1.0 / f * o == target
  {
    assert f * target == o;
    var a := 1.0 / f;
    assert a * f == 1.0;
    assert a * (f * target) == (a * f) * target;
  }

  lemma {:induction false} SharePositive(w: real, total: real, target: real)
    requires w > 0.0 && total > 0.0 && target > 0.0
    ensures w / total * target > 0.0
  {
    assert w / total > 0.0;
  }
}
