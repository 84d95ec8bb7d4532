/** The WIN odds vector of internal/racegen/generators/odds.go before it is assigned to runners, in
    exact arithmetic; logarithm, power, exponential and the normal of two fractions are abstract. */
module OddsVector {
  import opened Arithmetic
  import opened Basics
  import opened Ordering
  import ClampedNormal

  datatype Functions = Functions(geo: seq<real> -> real, pow: (real, real) -> real, exp: real -> real,
                                 normal: ClampedNormal.BoxMuller)

  ghost predicate Lawful(m: Functions) {
    && (forall s | |s| > 0 && AllPositive(s) :: m.geo(s) > 0.0)
    && (forall x, y, k | 0.0 < x <= y && 0.0 < k :: 0.0 < m.pow(x, k) <= m.pow(y, k))
    && m.exp(0.0) == 1.0 && (forall x, y | x <= y :: 0.0 < m.exp(x) <= m.exp(y))
  }

  /** The geometric mean, the power function, the exponential and the normal of two fractions: a positive
      mean, and a power and an exponential that keep the order. */
  type Analysis = m: Functions | Lawful(m)
    witness Functions(s => 1.0, (x: real, k: real) => 1.0, x => 1.0,
                      ClampedNormal.BoxMuller((u: real, v: real) => 0.0))

  // ---------- the steps ----------

  function NonNegative(x: real): real {
    if x < 0.0 then 0.0 else x
  }

  /** The favourite's odds, then each runner's by adding its gap; negative gaps count as none. */
  function RankVector(favourite: real, gaps: seq<real>): (s: seq<real>)
    ensures |s| == |gaps| + 1
  {
    if |gaps| == 0 then [favourite] else
      var before := RankVector(favourite, gaps[..|gaps| - 1]);
      before + [before[|gaps| - 1] + NonNegative(gaps[|gaps| - 1])]
  }

  /** One runner's odds moved away from the geometric mean g, or towards it. */
  function Stretched(m: Analysis, g: real, x: real, kappa: real): real
    requires g > 0.0
  {
    g * m.pow(x / g, kappa)
  }

  function Concentrated(m: Analysis, s: seq<real>, kappa: real): (r: seq<real>)
    requires |s| > 0 && AllPositive(s)
    ensures |r| == |s|
  {
    if kappa == 1.0 then s else
      var g := m.geo(s);
      seq(|s|, i requires 0 <= i < |s| => Stretched(m, g, s[i], kappa))
  }

  function Inverses(odds: seq<real>): (r: seq<real>)
    requires AllPositive(odds)
    ensures |r| == |odds|
  {
    seq(|odds|, i requires 0 <= i < |odds| => 1.0 / odds[i])
  }

  /** What the book pays out for one unit on every runner, inverted: the bookmaker's margin. */
  function Overround(odds: seq<real>): real
    requires AllPositive(odds)
  {
    Sum(Inverses(odds))
  }

  function Saturated(over: real, span: real): real
    requires over > 0.0 && span >= 0.0
  {
    span * over / (over + span)
  }

  function SoftCap(v: real, soft: real, hard: real): real
    requires soft <= hard
  {
    if v <= soft then v else soft + Saturated(v - soft, hard - soft)
  }

  /** Half away from zero. */
  function RoundHalfAway(x: real): int {
    if x >= 0.0 then (x + 0.5).Floor else -((0.5 - x).Floor)
  }

  /** To one decimal. */
  function Round1(v: real): real {
    RoundHalfAway(v * 10.0) as real / 10.0
  }

  function AtLeast(v: real, floor: real): real {
    if v < floor then floor else v
  }

  datatype Bounds = Bounds(floor: real, soft: real, hard: real)

  /** What the configuration's validation guarantees. */
  type Limits = l: Bounds | 0.0 < l.floor <= l.soft <= l.hard witness Bounds(1.0, 1.0, 3.0)

  function AdjustedOdds(v: real, factor: real, l: Limits): real {
    Round1(SoftCap(AtLeast(v * factor, l.floor), l.soft, l.hard))
  }

  function Adjusted(s: seq<real>, factor: real, l: Limits): (r: seq<real>)
    ensures |r| == |s|
  {
    seq(|s|, i requires 0 <= i < |s| => AdjustedOdds(s[i], factor, l))
  }

  // ---------- each step keeps the order ----------

  lemma {:induction false} RankVectorOrdered(favourite: PosReal, gaps: seq<real>)
    ensures Nondecreasing(RankVector(favourite, gaps)) && AllPositive(RankVector(favourite, gaps))
  {
    if |gaps| > 0 {
      var m := |gaps| - 1;
      RankVectorOrdered(favourite, gaps[..m]);
      var before := RankVector(favourite, gaps[..m]);
      assert forall i | 0 <= i <= m :: before[i] <= before[m];
    }
  }

  lemma {:induction false} ConcentratedAt(m: Analysis, g: real, a: real, b: real, kappa: PosReal)
    requires g > 0.0 && 0.0 < a <= b
    ensures 0.0 < g * m.pow(a / g, kappa) <= g * m.pow(b / g, kappa)
  {
    QuotientOrder(a, b, g);
    ProductOrder(m.pow(a / g, kappa), m.pow(b / g, kappa), g);
  }

  /** Concentration keeps favourites favourites. */
  lemma {:induction false} ConcentratedOrdered(m: Analysis, s: seq<real>, kappa: PosReal)
    requires |s| > 0 && AllPositive(s) && Nondecreasing(s)
    ensures Nondecreasing(Concentrated(m, s, kappa)) && AllPositive(Concentrated(m, s, kappa))
  {
    hide Lawful;
    if kappa != 1.0 {
      var g := GeoPositive(m, s);
      var r := Concentrated(m, s, kappa);
      forall i, j | 0 <= i <= j < |s| ensures 0.0 < r[i] <= r[j] {
        ConcentratedAt(m, g, s[i], s[j], kappa);
      }
    }
  }

  lemma {:induction false} ConcentratedPositive(m: Analysis, s: seq<real>, kappa: PosReal)
    requires |s| > 0 && AllPositive(s)
    ensures AllPositive(Concentrated(m, s, kappa))
  {
    hide Lawful;
    if kappa != 1.0 {
      var g := GeoPositive(m, s);
      forall i | 0 <= i < |s| ensures Concentrated(m, s, kappa)[i] > 0.0 {
        ConcentratedAt(m, g, s[i], s[i], kappa);
      }
    }
  }

  lemma {:induction false} GeoPositive(m: Analysis, s: seq<real>) returns (g: real)
    requires |s| > 0 && AllPositive(s)
    ensures g == m.geo(s) > 0.0
  {
    g := m.geo(s);
  }

  lemma {:induction false} SaturatedOrdered(o: real, p: real, span: real)
    requires 0.0 < o <= p && 0.0 <= span
    ensures Saturated(o, span) <= Saturated(p, span)
  {
    CrossProducts(o, p, span);
    FractionOrder(span * o, o + span, span * p, p + span);
  }

  lemma {:induction false} SaturatedBounds(o: real, span: real)
    requires 0.0 < o && 0.0 <= span
    ensures 0.0 <= Saturated(o, span) <= span && Saturated(o, span) <= o
  {
    Nonnegative(span, o);
    assert span * o <= o * (o + span) && span * o <= span * (o + span);
    FractionOrder(0.0, 1.0, span * o, o + span);
    FractionOrder(span * o, o + span, span, 1.0);
    FractionOrder(span * o, o + span, o, 1.0);
  }

  /** The soft cap keeps the order, never raises odds, leaves those up to the soft cap alone and keeps
      the others between the two caps. */
  lemma {:induction false} SoftCapOrdered(v: real, w: real, soft: real, hard: real)
    requires soft <= hard && v <= w
    ensures SoftCap(v, soft, hard) <= SoftCap(w, soft, hard)
    ensures SoftCap(v, soft, hard) <= v
    ensures v > soft ==> soft <= SoftCap(v, soft, hard) <= hard
  {
    hide Saturated;
    if v > soft {
      SaturatedOrdered(v - soft, w - soft, hard - soft);
      SaturatedBounds(v - soft, hard - soft);
    } else if w > soft {
      SaturatedBounds(w - soft, hard - soft);
    }
  }

  lemma {:induction false} SaturatedStrict(o: real, p: real, span: real)
    requires 0.0 < o < p && 0.0 < span
    ensures Saturated(o, span) < Saturated(p, span)
  {
    hide Saturated;
    SaturatedOrdered(o, p, span);
    SaturatedTimes(o, span);
    SaturatedTimes(p, span);
    var x := Saturated(o, span);
    if x == Saturated(p, span) {
      assert x * (p - o) == span * (p - o);
      SaturatedBelow(o, span);
    }
  }

  lemma {:induction false} SaturatedTimes(o: real, span: real)
    requires 0.0 < o && 0.0 <= span
    ensures Saturated(o, span) * (o + span) == span * o
    ensures span == 0.0 ==> Saturated(o, span) == 0.0
  {
  }

  lemma {:induction false} SaturatedBelow(o: real, span: real)
    requires 0.0 < o && 0.0 < span
    ensures Saturated(o, span) < span
  {
    hide Saturated;
    SaturatedTimes(o, span);
    SaturatedBounds(o, span);
    BelowSpan(Saturated(o, span), o, span);
  }

  /** Neighbouring longshots stay apart exactly when the soft cap is below the hard one, although the
      validation of the configuration also lets the two be equal. */
  lemma {:induction false} LongshotsStayApart(v: real, w: real, soft: real, hard: real)
    requires soft <= hard && soft < v < w
    ensures SoftCap(v, soft, hard) < SoftCap(w, soft, hard) <==> soft < hard
  {
    hide Saturated;
    if soft < hard {
      SaturatedStrict(v - soft, w - soft, hard - soft);
    } else {
      SaturatedTimes(v - soft, 0.0);
      SaturatedTimes(w - soft, 0.0);
    }
  }

  lemma {:induction false} RoundOrdered(v: real, w: real)
    requires v <= w
    ensures Round1(v) <= Round1(w)
  {
    var x, y := v * 10.0, w * 10.0;
    assert x <= y;
    assert RoundHalfAway(x) <= RoundHalfAway(y);
  }

  /** One runner's odds: the order against another's, and the limits. */
  lemma {:induction false} AdjustedOddsOrdered(v: real, w: real, factor: PosReal, l: Limits)
    requires v <= w
    ensures AdjustedOdds(v, factor, l) <= AdjustedOdds(w, factor, l)
    ensures Round1(l.floor) <= AdjustedOdds(v, factor, l) <= Round1(l.hard)
  {
    hide Round1, SoftCap, AtLeast, AdjustedOdds;
    var x, y := v * factor, w * factor;
    ProductOrderOf(v, w, factor, x, y);
    AdjustedStep(v, factor, l, x);
    AdjustedStep(w, factor, l, y);
    AtLeastOrdered(x, y, l.floor);
    var a, b := AtLeast(x, l.floor), AtLeast(y, l.floor);
    SoftCapOrdered(a, b, l.soft, l.hard);
    SoftCapOrdered(l.floor, a, l.soft, l.hard);
    BelowCap(l.floor, l.soft, l.hard);
    BelowCap(a, l.soft, l.hard);
    RoundOrdered(SoftCap(a, l.soft, l.hard), SoftCap(b, l.soft, l.hard));
    RoundOrdered(l.floor, SoftCap(a, l.soft, l.hard));
    RoundOrdered(SoftCap(a, l.soft, l.hard), l.hard);
  }

  lemma {:induction false} AdjustedStep(v: real, factor: real, l: Limits, x: real)
    requires x == v * factor
    ensures AdjustedOdds(v, factor, l) == Round1(SoftCap(AtLeast(x, l.floor), l.soft, l.hard))
  {
  }

  lemma {:induction false} AtLeastOrdered(x: real, y: real, floor: real)
    requires x <= y
    ensures floor <= AtLeast(x, floor) <= AtLeast(y, floor)
  {
  }

  lemma {:induction false} BelowCap(v: real, soft: real, hard: real)
    requires soft <= hard
    ensures v <= soft ==> SoftCap(v, soft, hard) == v
  {
  }

  ghost predicate Bounded(v: seq<real>, lo: real, hi: real) {
    forall i | 0 <= i < |v| :: lo <= v[i] <= hi
  }

  /** From the drawn favourite and gaps to rounded odds: the order by rank survives every step, and
      every value lies between the rounded floor and the rounded maximum. */
  lemma {:induction false} RankSpaceOrdered(m: Analysis, favourite: PosReal, gaps: seq<real>, kappa: PosReal,
                                            factor: PosReal, l: Limits)
    ensures AllPositive(RankVector(favourite, gaps))
    ensures var v := Adjusted(Concentrated(m, RankVector(favourite, gaps), kappa), factor, l);
            Nondecreasing(v) && Bounded(v, Round1(l.floor), Round1(l.hard))
  {
    hide Lawful, AdjustedOdds, RankVector, Round1;
    RankVectorOrdered(favourite, gaps);
    var s := RankVector(favourite, gaps);
    ConcentratedOrdered(m, s, kappa);
    AdjustedOrdered(Concentrated(m, s, kappa), factor, l);
  }

  lemma {:induction false} AdjustedOrdered(s: seq<real>, factor: PosReal, l: Limits)
    requires Nondecreasing(s)
    ensures Nondecreasing(Adjusted(s, factor, l)) && Bounded(Adjusted(s, factor, l), Round1(l.floor), Round1(l.hard))
  {
    hide AdjustedOdds, Round1;
    var v := Adjusted(s, factor, l);
    forall i, j | 0 <= i <= j < |s| ensures v[i] <= v[j] && Round1(l.floor) <= v[i] <= Round1(l.hard) {
      AdjustedOddsOrdered(s[i], s[j], factor, l);
    }
  }

  /** Equal multisets of odds have equal overround. */
  lemma {:induction false} OverroundRearranged(a: seq<real>, b: seq<real>)
    requires AllPositive(a) && multiset(a) == multiset(b)
    ensures AllPositive(b) && Overround(a) == Overround(b)
  {
    hide Sum;
    forall i | 0 <= i < |b| ensures b[i] > 0.0 {
      assert b[i] in multiset(a);
    }
    InversesRearranged(a, b);
    SumRearranged(Inverses(a), Inverses(b));
  }

  lemma {:induction false} InversesRearranged(a: seq<real>, b: seq<real>)
    requires AllPositive(a) && AllPositive(b) && multiset(a) == multiset(b)
    ensures multiset(Inverses(a)) == multiset(Inverses(b))
    decreases |a|
  {
    if |a| == 0 {
      assert |multiset(b)| == |b| && |multiset(a)| == 0;
    } else {
      assert a[0] in multiset(b);
      var j :| 0 <= j < |b| && b[j] == a[0];
      WithoutMultiset(a, 0);
      WithoutMultiset(b, j);
      CancelOne(multiset(Without(a, 0)), multiset(Without(b, j)), a[0]);
      InversesRearranged(Without(a, 0), Without(b, j));
      assert Inverses(Without(a, 0)) == Without(Inverses(a), 0);
      assert Inverses(Without(b, j)) == Without(Inverses(b), j);
      WithoutMultiset(Inverses(a), 0);
      WithoutMultiset(Inverses(b), j);
    }
  }

  lemma {:induction false} OverroundPositive(odds: seq<real>)
    requires |odds| > 0 && AllPositive(odds)
    ensures Overround(odds) > 0.0
  {
    hide Sum;
    forall i | 0 <= i < |odds| ensures Inverses(odds)[i] > 0.0 {
      assert 1.0 / odds[i] > 0.0;
    }
    SumPositive(Inverses(odds));
  }

  /** Above the soft cap the excess follows the saturating curve: its reciprocal is the sum of the
      reciprocals of the uncapped excess and of the room between the caps. */
  lemma {:induction false} SoftCapCurve(v: real, soft: real, hard: real)
    requires soft < hard && v > soft
    ensures SoftCap(v, soft, hard) > soft
    ensures 1.0 / (SoftCap(v, soft, hard) - soft) == 1.0 / (v - soft) + 1.0 / (hard - soft)
  {
    hide Saturated;
    SaturatedTimes(v - soft, hard - soft);
    ReciprocalSum(Saturated(v - soft, hard - soft), v - soft, hard - soft);
  }

  /** Rounding picks the nearest integer, and of two nearest the one away from zero. */
  lemma {:induction false} RoundIsNearest(x: real)
    ensures -0.5 <= x - RoundHalfAway(x) as real <= 0.5
    ensures x - RoundHalfAway(x) as real == 0.5 ==> x < 0.0
    ensures x - RoundHalfAway(x) as real == -0.5 ==> x > 0.0
  {
  }

  // ---------- what concentration and rescaling keep ----------

  function Product(s: seq<real>, k: nat): real
    requires k <= |s|
  {
    if k == 0 then 1.0 else Product(s, k - 1) * s[k - 1]
  }

  ghost predicate Splits(m: Analysis, x: real, y: real, k: real) {
    m.pow(x * y, k) == m.pow(x, k) * m.pow(y, k)
  }

  /** The geometric mean is the root of the product, and the power of a product the product of powers. */
  ghost predicate Exact(m: Analysis) {
    && (forall s | |s| > 0 && AllPositive(s) :: PowReal(m.geo(s), |s|) == Product(s, |s|))
    && (forall x, y, k | 0.0 < x && 0.0 < y :: Splits(m, x, y, k))
    && (forall k: real :: m.pow(1.0, k) == 1.0)
  }

  function Relative(s: seq<real>, g: real): (r: seq<real>)
    requires g > 0.0
    ensures |r| == |s|
  {
    seq(|s|, i requires 0 <= i < |s| => s[i] / g)
  }

  lemma {:induction false} RelativeProduct(s: seq<real>, g: real, n: nat)
    requires n <= |s| && g > 0.0 && AllPositive(s)
    ensures Product(Relative(s, g), n) > 0.0 && Product(Relative(s, g), n) * PowReal(g, n) == Product(s, n)
  {
    if n > 0 {
      RelativeProduct(s, g, n - 1);
      var x, y := Product(Relative(s, g), n - 1), s[n - 1] / g;
      RatioPositive(s[n - 1], g);
      assert y * g == s[n - 1];
      ProductPositive(x, y);
      MergeFactors(x, y, g, PowReal(g, n - 1), Product(s, n - 1), s[n - 1], Product(Relative(s, g), n), PowReal(g, n));
    }
  }

  lemma {:induction false} EmptyProduct(s: seq<real>, g: real)
    ensures Product(s, 0) == 1.0 && PowReal(g, 0) == 1.0
  {
  }

  lemma {:induction false} ProductStep(s: seq<real>, g: real, n: nat)
    requires 0 < n <= |s|
    ensures Product(s, n) == Product(s, n - 1) * s[n - 1] && PowReal(g, n) == g * PowReal(g, n - 1)
  {
  }

  lemma {:induction false} ConcentratedProduct(m: Analysis, s: seq<real>, kappa: real, n: nat)
    requires Exact(m) && kappa != 1.0 && 0 < |s| && n <= |s| && AllPositive(s)
    requires m.geo(s) > 0.0
    ensures Product(Concentrated(m, s, kappa), n) ==
            PowReal(m.geo(s), n) * m.pow(Product(Relative(s, m.geo(s)), n), kappa)
  {
    hide Lawful, Exact, Splits, Product, PowReal;
    var g := m.geo(s);
    if n == 0 {
      PowerOfOne(m, kappa);
      EmptyProduct(Concentrated(m, s, kappa), g);
      EmptyProduct(Relative(s, g), g);
    } else {
      ProductStep(Relative(s, g), g, n);
      ProductStep(Concentrated(m, s, kappa), g, n);
      ConcentratedProduct(m, s, kappa, n - 1);
      RelativeProduct(s, g, n - 1);
      var x, y := Product(Relative(s, g), n - 1), s[n - 1] / g;
      QuotientOrder(s[n - 1], s[n - 1], g);
      PowerSplits(m, x, y, Product(Relative(s, g), n), kappa);
      var c := Concentrated(m, s, kappa);
      assert c[n - 1] == Stretched(m, g, s[n - 1], kappa);
      MergePowers(PowReal(g, n - 1), m.pow(x, kappa), g, m.pow(y, kappa), Product(c, n - 1), PowReal(g, n),
                  m.pow(Product(Relative(s, g), n), kappa), c[n - 1], Product(c, n));
    }
  }

  lemma {:induction false} PowerOfOne(m: Analysis, k: real)
    requires Exact(m)
    ensures m.pow(1.0, k) == 1.0
  {
  }

  lemma {:induction false} PowerSplits(m: Analysis, x: real, y: real, xy: real, k: real)
    requires Exact(m) && 0.0 < x && 0.0 < y && xy == x * y
    ensures m.pow(xy, k) == m.pow(x, k) * m.pow(y, k)
  {
    assert Splits(m, x, y, k);
  }

  lemma {:induction false} GeoIsRoot(m: Analysis, s: seq<real>)
    requires Exact(m) && |s| > 0 && AllPositive(s)
    ensures PowReal(m.geo(s), |s|) == Product(s, |s|)
  {
  }

  lemma {:induction false} RootUnique(a: real, b: real, n: nat)
    requires 0.0 < a < b && n > 0
    ensures 0.0 < PowReal(a, n) < PowReal(b, n)
  {
    if n > 1 {
      RootUnique(a, b, n - 1);
      var x, y := PowReal(a, n - 1), PowReal(b, n - 1);
      ProductStrict(x, y, a);
      ProductStrict(a, b, y);
      ProductOrder(a, b, x);
    }
  }

  /** Concentration stretches the field around its geometric mean, which it keeps. */
  lemma {:induction false} ConcentrationKeepsGeometricMean(m: Analysis, s: seq<real>, kappa: PosReal)
    requires Exact(m) && |s| > 0 && AllPositive(s)
    ensures AllPositive(Concentrated(m, s, kappa))
    ensures m.geo(Concentrated(m, s, kappa)) == m.geo(s)
  {
    hide Lawful, Exact, Relative;
    ConcentratedPositive(m, s, kappa);
    if kappa != 1.0 {
      var r := Concentrated(m, s, kappa);
      var g := GeoPositive(m, s);
      var h := GeoPositive(m, r);
      GeoIsRoot(m, s);
      GeoIsRoot(m, r);
      RelativeProduct(s, g, |s|);
      ConcentratedProduct(m, s, kappa, |s|);
      PowRealPositive(g, |s|);
      UnitRatio(Product(Relative(s, g), |s|), PowReal(g, |s|), Product(s, |s|));
      PowerOfOne(m, kappa);
      if g < h {
        RootUnique(g, h, |s|);
      } else if h < g {
        RootUnique(h, g, |s|);
      }
    }
  }

  /** Before limits and rounding, rescaling by the overround over the target meets the target exactly. */
  lemma {:induction false} RescalingMeetsTarget(s: seq<real>, target: PosReal)
    requires |s| > 0 && AllPositive(s)
    ensures Overround(s) / target > 0.0 && AllPositive(Scaled(Overround(s) / target, s))
    ensures Overround(Scaled(Overround(s) / target, s)) == target
  {
    hide Overround, Sum;
    OverroundPositive(s);
    var o := Overround(s);
    var f := o / target;
    var scaled := Scaled(f, s);
    forall i | 0 <= i < |s| ensures scaled[i] > 0.0 {
      ProductOrder(s[i], s[i], f);
    }
    forall i | 0 <= i < |s| ensures Inverses(scaled)[i] == Scaled(1.0 / f, Inverses(s))[i] {
      ReciprocalOfProduct(f, s[i]);
    }
    assert Inverses(scaled) == Scaled(1.0 / f, Inverses(s));
    ScaledTotal(1.0 / f, Inverses(s));
    OverroundIs(s);
    OverroundIs(scaled);
    Undo(o, target, f);
  }

  lemma {:induction false} OverroundIs(s: seq<real>)
    requires AllPositive(s)
    ensures Overround(s) == Sum(Inverses(s))
  {
  }

  // ---------- the methods ----------

  method CalcOverround(odds: seq<real>) returns (s: real)
    requires AllPositive(odds)
    ensures s == Overround(odds)
  {
    s := 0.0;
    for i := 0 to |odds|
      invariant s == Prefix(Inverses(odds), i)
    {
      s := s + 1.0 / odds[i];
    }
  }

  lemma {:induction false} StretchedIs(m: Analysis, g: real, x: real, kappa: real, r: real)
    requires g > 0.0 && r == g * m.pow(x / g, kappa)
    ensures r == Stretched(m, g, x, kappa)
  {
  }

  method ApplyShapeConcentration(m: Analysis, odds: array<real>, kappa: real)
    requires odds.Length > 0 && AllPositive(odds[..])
    modifies odds
    ensures odds[..] == Concentrated(m, old(odds[..]), kappa)
  {
    hide Lawful, Stretched;
    if kappa == 1.0 {
      return;
    }
    ghost var was := odds[..];
    ghost var positive := GeoPositive(m, was);
    var g := m.geo(odds[..]);
    for i := 0 to odds.Length
      invariant forall j | 0 <= j < i :: odds[j] == Stretched(m, g, was[j], kappa)
      invariant forall j | i <= j < odds.Length :: odds[j] == was[j]
    {
      var stretched := g * m.pow(odds[i] / g, kappa);
      StretchedIs(m, g, odds[i], kappa, stretched);
      odds[i] := stretched;
    }
    forall j | 0 <= j < odds.Length ensures odds[..][j] == Concentrated(m, was, kappa)[j] {
    }
    assert odds[..] == Concentrated(m, was, kappa);
  }

  // ---------- each value's exact place ----------

  /** Rounding to one decimal gives the nearest multiple of a tenth, and of two nearest the one away from zero. */
  lemma {:induction false} RoundedToTenth(v: real)
    ensures (Round1(v) * 10.0).Floor as real == Round1(v) * 10.0
    ensures -0.05 <= v - Round1(v) <= 0.05
    ensures v - Round1(v) == 0.05 ==> v < 0.0
    ensures v - Round1(v) == -0.05 ==> v > 0.0
  {
    RoundIsNearest(v * 10.0);
    assert Round1(v) * 10.0 == RoundHalfAway(v * 10.0) as real;
  }

  /** A rescaled value x below the floor becomes the rounded floor, one between the floor and the soft cap is only
      rounded, and one above is rounded after its excess is saturated. */
  lemma {:induction false} AdjustedCases(v: real, factor: real, l: Limits, x: real)
    requires x == v * factor
    ensures x <= l.floor ==> AdjustedOdds(v, factor, l) == Round1(l.floor)
    ensures l.floor <= x <= l.soft ==> AdjustedOdds(v, factor, l) == Round1(x)
    ensures x > l.soft && l.soft < l.hard ==>
              exists y: real :: y > l.soft && 1.0 / (y - l.soft) == 1.0 / (x - l.soft) + 1.0 / (l.hard - l.soft) &&
                AdjustedOdds(v, factor, l) == Round1(y)
    ensures x > l.soft == l.hard ==> AdjustedOdds(v, factor, l) == Round1(l.hard)
  {
    hide AdjustedOdds, Round1, Saturated;
    AdjustedStep(v, factor, l, x);
    if x > l.soft {
      if l.soft < l.hard {
        SoftCapCurve(x, l.soft, l.hard);
      } else {
        SaturatedTimes(x - l.soft, 0.0);
      }
    }
  }

  /** Concentration raises each runner's ratio to the geometric mean to the power kappa, and does nothing for a kappa
      of 1. */
  lemma {:induction false} ConcentratedRatios(m: Analysis, s: seq<real>, kappa: PosReal, i: nat)
    requires AllPositive(s) && i < |s|
    ensures kappa == 1.0 ==> Concentrated(m, s, kappa)[i] == s[i]
    ensures kappa != 1.0 ==> Concentrated(m, s, kappa)[i] / m.geo(s) == m.pow(s[i] / m.geo(s), kappa)
  {
    hide Lawful;
    var g := GeoPositive(m, s);
    RatioOfProduct(g, m.pow(s[i] / g, kappa));
  }

  lemma {:induction false} RatioOfProduct(g: real, x: real)
    requires g > 0.0
    ensures g * x / g == x
  {
    var y := g * x / g;
    assert y * g == g * x;
    assert (y - x) * g == 0.0;
  }
}
