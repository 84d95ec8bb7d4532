/** Building a selector and drawing from it (internal/racegen/videoselector/selector.go:56-140
    and 214-233): what the whole fit guarantees and how often each entry is drawn. */
module VideoDraw {
  import opened Arithmetic
  import opened Basics
  import opened Options
  import opened CertifiedDraws
  import opened WeightedDraw
  import opened IpfFit
  import VideoSelector

  datatype VideoFinish = VideoFinish(id: string, order: seq<nat>)
  datatype Config = Config(competitors: int, first: map<nat, real>, second: map<nat, real>,
                           iterations: int, exactaFactor: real)
  datatype Error = EmptyPool | TooFewCompetitors | BadFirstTargets | BadSecondTargets | BadOrder(id: string)
  datatype Result<+T> = Ok(value: T) | Err(error: Error)

  /** The fitted cumulative distribution over the entries. */
  datatype Selector = Selector(entries: seq<VideoFinish>, cumulative: seq<real>, totalW: real)

  // ---------- the fit as a function ----------

  ghost predicate WellOrdered(entries: seq<VideoFinish>) {
    forall i | 0 <= i < |entries| :: |entries[i].order| >= 2
  }

  function FirstKeys(entries: seq<VideoFinish>): (ks: seq<nat>)
    requires WellOrdered(entries)
    ensures |ks| == |entries|
  {
    seq(|entries|, i requires 0 <= i < |entries| => entries[i].order[0])
  }

  function SecondKeys(entries: seq<VideoFinish>): (ks: seq<nat>)
    requires WellOrdered(entries)
    ensures |ks| == |entries|
  {
    seq(|entries|, i requires 0 <= i < |entries| => entries[i].order[1])
  }

  function ExactaKeys(entries: seq<VideoFinish>): (ks: seq<(nat, nat)>)
    requires WellOrdered(entries)
    ensures |ks| == |entries|
  {
    seq(|entries|, i requires 0 <= i < |entries| => (entries[i].order[0], entries[i].order[1]))
  }

  /** One iteration: first-place margin, second-place margin, exacta correction. */
  function FitOnce(w: seq<real>, entries: seq<VideoFinish>, first: map<nat, real>, second: map<nat, real>,
                   share: real, factor: real): (r: seq<real>)
    requires WellOrdered(entries) && |w| == |entries|
    ensures |r| == |w|
  {
    Nudged(Fitted(Fitted(w, FirstKeys(entries), first), SecondKeys(entries), second),
           ExactaKeys(entries), share, factor)
  }

  function FitMany(entries: seq<VideoFinish>, first: map<nat, real>, second: map<nat, real>,
                   share: real, factor: real, m: nat): (r: seq<real>)
    requires WellOrdered(entries)
    ensures |r| == |entries|
  {
    if m == 0 then seq(|entries|, i => 1.0)
    else FitOnce(FitMany(entries, first, second, share, factor, m - 1), entries, first, second, share, factor)
  }

  /** Through any number of iterations every weight stays positive. */
  lemma {:induction false} FitStaysPositive(entries: seq<VideoFinish>, first: map<nat, real>, second: map<nat, real>,
                                            share: real, factor: real, m: nat)
    requires WellOrdered(entries) && PositiveTargets(first) && PositiveTargets(second)
    requires share > 0.0 && factor > 0.0 && Remainder(share, factor) > 0.0
    ensures AllPositive(FitMany(entries, first, second, share, factor, m))
  {
    hide FitOnce, Remainder, PositiveTargets;
    if m > 0 {
      FitStaysPositive(entries, first, second, share, factor, m - 1);
      FitOncePositive(FitMany(entries, first, second, share, factor, m - 1), entries, first, second, share, factor);
    }
  }

  lemma {:induction false} FitOncePositive(w: seq<real>, entries: seq<VideoFinish>, first: map<nat, real>,
                                           second: map<nat, real>, share: real, factor: real)
    requires WellOrdered(entries) && PositiveTargets(first) && PositiveTargets(second)
    requires share > 0.0 && factor > 0.0 && Remainder(share, factor) > 0.0 && AllPositive(w) && |w| == |entries|
    ensures AllPositive(FitOnce(w, entries, first, second, share, factor))
  {
    hide AllPositive, Fitted, Nudged, Remainder;
    FittedPositive(w, FirstKeys(entries), first);
    var w1 := Fitted(w, FirstKeys(entries), first);
    FittedPositive(w1, SecondKeys(entries), second);
    NudgedPositive(Fitted(w1, SecondKeys(entries), second), ExactaKeys(entries), share, factor);
  }

  /** With targets of zero, or at the greatest factor, no weight turns negative. */
  lemma {:induction false} FitStaysNonnegative(entries: seq<VideoFinish>, first: map<nat, real>,
      second: map<nat, real>, share: real, factor: real, m: nat)
    requires WellOrdered(entries) && NonnegativeTargets(first) && NonnegativeTargets(second)
    requires share > 0.0 && factor > 0.0 && Remainder(share, factor) >= 0.0
    ensures AllNonnegative(FitMany(entries, first, second, share, factor, m))
  {
    hide FitOnce, Remainder, NonnegativeTargets;
    if m > 0 {
      FitStaysNonnegative(entries, first, second, share, factor, m - 1);
      FitOnceNonnegative(FitMany(entries, first, second, share, factor, m - 1), entries, first, second, share, factor);
    }
  }

  lemma {:induction false} FitOnceNonnegative(w: seq<real>, entries: seq<VideoFinish>, first: map<nat, real>,
                                              second: map<nat, real>, share: real, factor: real)
    requires WellOrdered(entries) && NonnegativeTargets(first) && NonnegativeTargets(second)
    requires share > 0.0 && factor > 0.0 && Remainder(share, factor) >= 0.0 && AllNonnegative(w) && |w| == |entries|
    ensures AllNonnegative(FitOnce(w, entries, first, second, share, factor))
  {
    hide AllNonnegative, Fitted, Nudged, Remainder;
    FittedNonnegative(w, FirstKeys(entries), first);
    var w1 := Fitted(w, FirstKeys(entries), first);
    FittedNonnegative(w1, SecondKeys(entries), second);
    NudgedNonnegative(Fitted(w1, SecondKeys(entries), second), ExactaKeys(entries), share, factor);
  }

  /** What is left of a weight x that is all the weight. */
  function Left(x: real, share: real, factor: real): real {
    x * (Remainder(share, factor) / 100.0)
  }

  /** A pool that shows one exacta only: the exacta step leaves its weight the remainder. */
  lemma {:induction false} OneCellKeepsRemainder(w: seq<real>, keys: seq<(nat, nat)>, share: real, factor: real)
    requires |w| == |keys| == 1 && w[0] > 0.0
    ensures Nudged(w, keys, share, factor) == [Left(w[0], share, factor)]
  {
    assert Prefix(w, 1) == Prefix(w, 0) + w[0] && Mass(w, keys, keys[0], 1) == Mass(w, keys, keys[0], 0) + w[0];
    FullGain(w[0], share, factor);
    assert Nudged(w, keys, share, factor)[0] == Left(w[0], share, factor);
  }

  lemma {:induction false} FullGain(x: real, share: real, factor: real)
    requires x > 0.0
    ensures Share(x, x) == 100.0
    ensures 1.0 + factor * (share / 100.0 - 1.0) == Remainder(share, factor) / 100.0
  {
  }

  lemma {:induction false} OneEntryFit(e: VideoFinish, first: map<nat, real>, second: map<nat, real>,
                                       share: real, factor: real) returns (x: real)
    requires |e.order| >= 2 && PositiveTargets(first) && PositiveTargets(second)
    ensures x > 0.0 && FitMany([e], first, second, share, factor, 1) == [Left(x, share, factor)]
  {
    hide Fitted, Nudged, Left, PositiveTargets, FitMany;
    OneIteration([e], first, second, share, factor);
    var w := FitMany([e], first, second, share, factor, 0);
    var w1 := Fitted(w, FirstKeys([e]), first);
    var w2 := Fitted(w1, SecondKeys([e]), second);
    FittedPositive(w, FirstKeys([e]), first);
    FittedPositive(w1, SecondKeys([e]), second);
    OneCellKeepsRemainder(w2, ExactaKeys([e]), share, factor);
    x := w2[0];
    assert FitOnce(w, [e], first, second, share, factor) == Nudged(w2, ExactaKeys([e]), share, factor);
  }

  lemma {:induction false} OneIteration(entries: seq<VideoFinish>, first: map<nat, real>, second: map<nat, real>,
                                        share: real, factor: real)
    requires WellOrdered(entries)
    ensures FitMany(entries, first, second, share, factor, 1) ==
            FitOnce(FitMany(entries, first, second, share, factor, 0), entries, first, second, share, factor)
    ensures AllPositive(FitMany(entries, first, second, share, factor, 0))
  {
  }

  /** Pools of orders of n runners, through any number of iterations. */
  ghost predicate AlwaysPositive(n: nat, first: map<nat, real>, second: map<nat, real>, share: real, factor: real)
    requires n >= 2
  {
    forall entries: seq<VideoFinish>, m: nat | (forall i | 0 <= i < |entries| :: |entries[i].order| == n) ::
      AllPositive(FitMany(entries, first, second, share, factor, m))
  }

  /** The greatest exacta factor under which no pool loses a positive weight: beyond it, a pool that shows
      one exacta only has a weight that is not positive after one iteration. */
  lemma {:induction false} PositiveExactlyUpToFactor(n: nat, first: map<nat, real>, second: map<nat, real>,
                                                     share: real, factor: real)
    requires n >= 2 && PositiveTargets(first) && PositiveTargets(second) && share > 0.0 && factor > 0.0
    ensures AlwaysPositive(n, first, second, share, factor) <==> factor * (100.0 - share) < 100.0
  {
    hide PositiveTargets, AllPositive, FitMany;
    if Remainder(share, factor) > 0.0 {
      forall entries: seq<VideoFinish>, m: nat | (forall i | 0 <= i < |entries| :: |entries[i].order| == n)
        ensures AllPositive(FitMany(entries, first, second, share, factor, m))
      {
        FitStaysPositive(entries, first, second, share, factor, m);
      }
    } else {
      var e := VideoFinish("", seq(n, i => i + 1));
      var x := OneEntryFit(e, first, second, share, factor);
      NothingLeft(x, share, factor);
      SingleNotPositive(Left(x, share, factor));
      assert |[e][0].order| == n;
      assert !AllPositive(FitMany([e], first, second, share, factor, 1));
    }
  }

  lemma {:induction false} NothingLeft(x: real, share: real, factor: real)
    requires x > 0.0 && Remainder(share, factor) <= 0.0
    ensures Left(x, share, factor) <= 0.0
  {
    Nonnegative(x, -Remainder(share, factor) / 100.0);
  }

  lemma {:induction false} SingleNotPositive(x: real)
    requires x <= 0.0
    ensures !AllPositive([x])
  {
    assert [x][0] == x;
  }

  /** In exacta shares of n runners, the bound lies just above 1: 30/29 for six runners, 56/55 for eight. */
  lemma {:induction false} FactorBound(n: nat, factor: real)
    requires n >= 2
    ensures n * (n - 1) >= 2
    ensures var cells := (n * (n - 1)) as real;
            factor * (100.0 - 100.0 / cells) < 100.0 <==> factor * (cells - 1.0) < cells
  {
    assert n * (n - 1) >= 2 * 1;
    var cells := (n * (n - 1)) as real;
    var share := 100.0 / cells;
    assert share * cells == 100.0;
    var x, y := factor * (100.0 - share) - 100.0, factor * (cells - 1.0) - cells;
    assert x * cells == factor * (100.0 * cells - share * cells) - 100.0 * cells == 100.0 * y;
  }

  ghost predicate HaveTargets(entries: seq<VideoFinish>, first: map<nat, real>, second: map<nat, real>)
    requires WellOrdered(entries)
  {
    forall i | 0 <= i < |entries| :: entries[i].order[0] in first && entries[i].order[1] in second
  }

  lemma {:induction false} FitOnceScaled(c: real, a: real, b: real, d: real, w: seq<real>, entries: seq<VideoFinish>,
      first: map<nat, real>, second: map<nat, real>, share: real, factor: real)
    requires c > 0.0 && a > 0.0 && b > 0.0 && d == c * a * b && |w| == |entries| && AllNonnegative(w)
    requires WellOrdered(entries) && NonnegativeTargets(first) && NonnegativeTargets(second)
    requires HaveTargets(entries, first, second)
    ensures FitOnce(Scaled(c, w), entries, ScaledTargets(a, first), ScaledTargets(b, second), share, factor) ==
              Scaled(d, FitOnce(w, entries, first, second, share, factor))
  {
    hide AllNonnegative, Fitted, Nudged, Scaled, ScaledTargets;
    ProductPositive(c, a);
    ProductPositive(c * a, b);
    var e := c * a;
    var w1 := Fitted(w, FirstKeys(entries), first);
    FittedScaled(c, a, e, w, FirstKeys(entries), first);
    FittedNonnegative(w, FirstKeys(entries), first);
    FittedScaled(e, b, d, w1, SecondKeys(entries), second);
    FittedNonnegative(w1, SecondKeys(entries), second);
    NudgedScaled(d, Fitted(w1, SecondKeys(entries), second), ExactaKeys(entries), share, factor);
  }

  /** Only the ratios of the targets matter: multiplying all first-place targets by a and all
      second-place targets by b multiplies every fitted weight by the same constant. */
  lemma {:induction false} FitIsScaleFree(a: real, b: real, entries: seq<VideoFinish>, first: map<nat, real>,
      second: map<nat, real>, share: real, factor: real, m: nat)
    requires a > 0.0 && b > 0.0
    requires WellOrdered(entries) && NonnegativeTargets(first) && NonnegativeTargets(second)
    requires HaveTargets(entries, first, second)
    requires share > 0.0 && factor > 0.0 && factor * (100.0 - share) <= 100.0
    ensures PowReal(a * b, m) > 0.0
    ensures FitMany(entries, ScaledTargets(a, first), ScaledTargets(b, second), share, factor, m) ==
              Scaled(PowReal(a * b, m), FitMany(entries, first, second, share, factor, m))
    decreases m, 1
  {
    ProductPositive(a, b);
    PowRealPositive(a * b, m);
    if m == 0 {
      assert Scaled(1.0, FitMany(entries, first, second, share, factor, 0)) ==
             FitMany(entries, first, second, share, factor, 0);
    } else {
      FitScaleStep(a, b, entries, first, second, share, factor, m);
    }
  }

  lemma {:induction false} FitScaleStep(a: real, b: real, entries: seq<VideoFinish>, first: map<nat, real>,
      second: map<nat, real>, share: real, factor: real, m: nat)
    requires a > 0.0 && b > 0.0 && m > 0
    requires WellOrdered(entries) && NonnegativeTargets(first) && NonnegativeTargets(second)
    requires HaveTargets(entries, first, second)
    requires share > 0.0 && factor > 0.0 && factor * (100.0 - share) <= 100.0
    ensures FitMany(entries, ScaledTargets(a, first), ScaledTargets(b, second), share, factor, m) ==
              Scaled(PowReal(a * b, m), FitMany(entries, first, second, share, factor, m))
    decreases m, 0
  {
    hide AllNonnegative, FitOnce, Scaled, ScaledTargets, NonnegativeTargets, PowReal, HaveTargets;
    var before := FitMany(entries, first, second, share, factor, m - 1);
    var c := PowReal(a * b, m - 1);
    FitIsScaleFree(a, b, entries, first, second, share, factor, m - 1);
    FitStaysNonnegative(entries, first, second, share, factor, m - 1);
    PowStep(a, b, m);
    FitOnceScaled(c, a, b, PowReal(a * b, m), before, entries, first, second, share, factor);
  }

  lemma {:induction false} PowStep(a: real, b: real, m: nat)
    requires m > 0
    ensures PowReal(a * b, m) == PowReal(a * b, m - 1) * a * b
  {
  }

  /** One step on two entries with different keys, whose shares are s and r. */
  lemma {:induction false} FitTwo(u: real, v: real, j: nat, k: nat, target: map<nat, real>, s: real, r: real,
                                  x: real, y: real)
    requires j != k && j in target && k in target
    requires u + v != 0.0 && s * (u + v) == 100.0 * u && r * (u + v) == 100.0 * v
    requires if s <= 0.0 then x == u else x * s == u * target[j]
    requires if r <= 0.0 then y == v else y * r == v * target[k]
    ensures Fitted([u, v], [j, k], target) == [x, y]
  {
    hide Fitted, Sum, KeyMass;
    TwoMasses(u, v, j, k);
    FitEntry([u, v], [j, k], target, 0, s, x);
    FitEntry([u, v], [j, k], target, 1, r, y);
  }

  lemma {:induction false} FitEntry<K(!new)>(w: seq<real>, keys: seq<K>, target: map<K, real>, i: nat, s: real, x: real)
    requires i < |w| == |keys| && keys[i] in target && Sum(w) != 0.0
    requires s * Sum(w) == 100.0 * KeyMass(w, keys, keys[i])
    requires if s <= 0.0 then x == w[i] else x * s == w[i] * target[keys[i]]
    ensures Fitted(w, keys, target)[i] == x
  {
    hide Share, Sum, KeyMass;
    ShareIs(KeyMass(w, keys, keys[i]), Sum(w), s);
    if s > 0.0 {
      GainIs(w[i], target[keys[i]], s, x, FitGain(w, keys, target, keys[i]));
    }
  }

  lemma {:induction false} NudgeTwo(u: real, v: real, j: (nat, nat), k: (nat, nat), share: real, factor: real,
                                    s: real, r: real, x: real, y: real)
    requires j != k && u + v != 0.0 && s * (u + v) == 100.0 * u && r * (u + v) == 100.0 * v
    requires if s <= 0.0 then x == u else x * s == u * (s + factor * (share - s))
    requires if r <= 0.0 then y == v else y * r == v * (r + factor * (share - r))
    ensures Nudged([u, v], [j, k], share, factor) == [x, y]
  {
    hide Nudged, Sum, KeyMass;
    TwoMasses(u, v, j, k);
    NudgeEntry([u, v], [j, k], share, factor, 0, s, x);
    NudgeEntry([u, v], [j, k], share, factor, 1, r, y);
  }

  lemma {:induction false} NudgeEntry<K(!new)>(w: seq<real>, keys: seq<K>, share: real, factor: real, i: nat,
                                               s: real, x: real)
    requires i < |w| == |keys| && Sum(w) != 0.0 && s * Sum(w) == 100.0 * KeyMass(w, keys, keys[i])
    requires if s <= 0.0 then x == w[i] else x * s == w[i] * (s + factor * (share - s))
    ensures Nudged(w, keys, share, factor)[i] == x
  {
    hide Share, Sum, KeyMass;
    ShareIs(KeyMass(w, keys, keys[i]), Sum(w), s);
    if s > 0.0 {
      NudgeIs(w[i], share, factor, s, x, NudgeGain(w, keys, share, factor, keys[i]));
    }
  }

  lemma {:induction false} ShareIs(m: real, total: real, s: real)
    requires total != 0.0 && s * total == 100.0 * m
    ensures Share(m, total) == s
  {
    var x := m / total;
    assert x * total == m;
    assert (x * 100.0 - s) * total == 0.0;
  }

  lemma {:induction false} GainIs(u: real, t: real, s: real, x: real, gain: real)
    requires s > 0.0 && x * s == u * t && gain == t / s
    ensures u * gain == x
  {
    assert gain * s == t;
    assert (u * gain - x) * s == 0.0;
  }

  lemma {:induction false} NudgeIs(u: real, share: real, factor: real, s: real, x: real, gain: real)
    requires s > 0.0 && x * s == u * (s + factor * (share - s)) && gain == 1.0 + factor * (share / s - 1.0)
    ensures u * gain == x
  {
    var c := share / s;
    assert c * s == share;
    assert gain * s == s + factor * (share - s);
    assert (u * gain - x) * s == 0.0;
  }

  lemma {:induction false} TwoMasses<K>(u: real, v: real, j: K, k: K)
    requires j != k
    ensures Sum([u, v]) == u + v && KeyMass([u, v], [j, k], j) == u && KeyMass([u, v], [j, k], k) == v
  {
    var w, keys := [u, v], [j, k];
    assert Prefix(w, 2) == Prefix(w, 1) + v && Prefix(w, 1) == Prefix(w, 0) + u;
    assert Mass(w, keys, j, 1) == Mass(w, keys, j, 0) + u && Mass(w, keys, k, 1) == Mass(w, keys, k, 0);
  }

  /** Beyond the greatest factor the scale of the targets matters: with the factor 3 for two runners, doubling
      the first-place targets turns the first weight from positive to negative. */
  lemma {:induction false} ScaleMattersBeyondFactor(entries: seq<VideoFinish>, first: map<nat, real>)
    requires |entries| == 2 && entries[0].order == [1, 2] && entries[1].order == [2, 1]
    requires first == map[1 := 90.0, 2 := 10.0]
    ensures var second := map[2 := 90.0, 1 := 10.0];
            && FitMany(entries, first, second, 50.0, 3.0, 2) == [0.48, 0.2]
            && FitMany(entries, ScaledTargets(2.0, first), second, 50.0, 3.0, 2) == [-0.36, -0.94]
  {
    hide Fitted, Nudged, Share;
    var second: map<nat, real> := map[2 := 90.0, 1 := 10.0];
    var fs: seq<nat>, ss: seq<nat>, es: seq<(nat, nat)> := [1, 2], [2, 1], [(1, 2), (2, 1)];
    assert FirstKeys(entries) == fs && SecondKeys(entries) == ss && ExactaKeys(entries) == es;
    FitTwo(1.0, 1.0, 1, 2, first, 50.0, 50.0, 1.8, 0.2);
    FitTwo(1.8, 0.2, 2, 1, second, 90.0, 10.0, 1.8, 0.2);
    NudgeTwo(1.8, 0.2, (1, 2), (2, 1), 50.0, 3.0, 90.0, 10.0, -0.6, 2.6);
    FitTwo(-0.6, 2.6, 1, 2, first, -30.0, 130.0, -0.6, 0.2);
    FitTwo(-0.6, 0.2, 2, 1, second, 150.0, -50.0, -0.36, 0.2);
    NudgeTwo(-0.36, 0.2, (1, 2), (2, 1), 50.0, 3.0, 225.0, -125.0, 0.48, 0.2);
    var doubled := ScaledTargets(2.0, first);
    FitTwo(1.0, 1.0, 1, 2, doubled, 50.0, 50.0, 3.6, 0.4);
    FitTwo(3.6, 0.4, 2, 1, second, 90.0, 10.0, 3.6, 0.4);
    NudgeTwo(3.6, 0.4, (1, 2), (2, 1), 50.0, 3.0, 90.0, 10.0, -1.2, 5.2);
    FitTwo(-1.2, 5.2, 1, 2, doubled, -30.0, 130.0, -1.2, 0.8);
    FitTwo(-1.2, 0.8, 2, 1, second, 300.0, -200.0, -0.36, 0.8);
    NudgeTwo(-0.36, 0.8, (1, 2), (2, 1), 50.0, 3.0, -900.0 / 11.0, 2000.0 / 11.0, -0.36, -0.94);
    TwoIterations(entries, first, second, [-0.6, 2.6], [0.48, 0.2]);
    TwoIterations(entries, doubled, second, [-1.2, 5.2], [-0.36, -0.94]);
  }

  lemma {:induction false} TwoIterations(entries: seq<VideoFinish>, first: map<nat, real>, second: map<nat, real>,
                                         w1: seq<real>, w2: seq<real>)
    requires WellOrdered(entries) && |w1| == |entries| == 2
    requires FitOnce([1.0, 1.0], entries, first, second, 50.0, 3.0) == w1
    requires FitOnce(w1, entries, first, second, 50.0, 3.0) == w2
    ensures FitMany(entries, first, second, 50.0, 3.0, 2) == w2
  {
    assert FitMany(entries, first, second, 50.0, 3.0, 0) == [1.0, 1.0];
    OneIteration(entries, first, second, 50.0, 3.0);
  }

  // ---------- beyond the greatest factor ----------

  predicate SameSign(u: real, t: real) {
    (u > 0.0 && t > 0.0) || (u < 0.0 && t < 0.0)
  }

  /** What one entry's weight u becomes in a total of t: fitted to its target, and nudged with the gains k and h. */
  function FitOne(u: real, t: real, target: real): real {
    if SameSign(u, t) then target * t / 100.0 else u
  }

  function NudgeOne(u: real, t: real, k: real, h: real): real {
    if SameSign(u, t) then k * u + h * t else u
  }

  lemma {:induction false} SignOfShare(u: real, t: real)
    requires t != 0.0
    ensures Share(u, t) > 0.0 <==> SameSign(u, t)
    ensures Share(u, t) * t == 100.0 * u
  {
    var x := u / t;
    assert x * t == u;
    if x > 0.0 {
      if t > 0.0 { ProductPositive(x, t); } else { ProductPositive(x, -t); }
    } else if x < 0.0 {
      if t > 0.0 { ProductPositive(-x, t); } else { ProductPositive(-x, -t); }
    }
  }

  lemma {:induction false} FitEntryOne(w: seq<real>, keys: seq<nat>, target: map<nat, real>, i: nat, t: real)
    requires i < |w| == |keys| && keys[i] in target && t == Sum(w) && KeyMass(w, keys, keys[i]) == w[i]
    ensures Fitted(w, keys, target)[i] == FitOne(w[i], t, target[keys[i]])
  {
    hide Sum, KeyMass, Share;
    if t != 0.0 {
      SignOfShare(w[i], t);
      var s, x := Share(w[i], t), target[keys[i]] * t / 100.0;
      SwapShare(target[keys[i]], t, s, w[i], x);
      FitEntry(w, keys, target, i, s, if SameSign(w[i], t) then x else w[i]);
    }
  }

  lemma {:induction false} SwapShare(target: real, t: real, s: real, u: real, x: real)
    requires s * t == 100.0 * u && x == target * t / 100.0
    ensures x * s == u * target
  {
    assert x * s * 100.0 == target * (s * t);
  }

  lemma {:induction false} NudgeEntryOne(w: seq<real>, keys: seq<(nat, nat)>, share: real, factor: real, i: nat,
                                         t: real, k: real, h: real)
    requires i < |w| == |keys| && t == Sum(w) && KeyMass(w, keys, keys[i]) == w[i]
    requires k == 1.0 - factor && h == factor * share / 100.0
    ensures Nudged(w, keys, share, factor)[i] == NudgeOne(w[i], t, k, h)
  {
    hide Sum, KeyMass, Share;
    if t != 0.0 {
      SignOfShare(w[i], t);
      var s, x := Share(w[i], t), k * w[i] + h * t;
      SwapNudge(share, factor, t, s, w[i], k, h, x);
      NudgeEntry(w, keys, share, factor, i, s, if SameSign(w[i], t) then x else w[i]);
    }
  }

  lemma {:induction false} SwapNudge(share: real, factor: real, t: real, s: real, u: real, k: real, h: real, x: real)
    requires s * t == 100.0 * u && k == 1.0 - factor && h == factor * share / 100.0 && x == k * u + h * t
    ensures x * s == u * (s + factor * (share - s))
  {
    assert h * t * s == factor * share / 100.0 * (s * t);
    assert x * s == k * u * s + factor * share * u;
  }

  /** Two entries won by the same runner, with different runners second. */
  ghost predicate OneWinner(entries: seq<VideoFinish>) {
    |entries| == 2 && WellOrdered(entries)
    && FirstKeys(entries) == [1, 1] && SecondKeys(entries) == [2, 3] && ExactaKeys(entries) == [(1, 2), (1, 3)]
  }

  /** Their winner's target being 100, the first step changes nothing. */
  lemma {:induction false} SameWinner(u: real, v: real, target: map<nat, real>)
    requires 1 in target && target[1] == 100.0
    ensures Fitted([u, v], [1, 1], target) == [u, v]
  {
    var w, keys: seq<nat> := [u, v], [1, 1];
    assert Prefix(w, 2) == Prefix(w, 1) + v && Prefix(w, 1) == Prefix(w, 0) + u;
    assert Mass(w, keys, 1, 2) == Mass(w, keys, 1, 1) + v && Mass(w, keys, 1, 1) == Mass(w, keys, 1, 0) + u;
    if Sum(w) != 0.0 {
      FitEntry(w, keys, target, 0, 100.0, u);
      FitEntry(w, keys, target, 1, 100.0, v);
    }
  }

  lemma {:induction false} OneWinnerStep(entries: seq<VideoFinish>, u: real, v: real, first: map<nat, real>,
      second: map<nat, real>, share: real, factor: real, k: real, h: real, u2: real, v2: real)
    requires OneWinner(entries) && 1 in first && first[1] == 100.0 && 2 in second && 3 in second
    requires k == 1.0 - factor && h == factor * share / 100.0
    requires u2 == FitOne(u, u + v, second[2]) && v2 == FitOne(v, u + v, second[3])
    ensures FitOnce([u, v], entries, first, second, share, factor) ==
            [NudgeOne(u2, u2 + v2, k, h), NudgeOne(v2, u2 + v2, k, h)]
  {
    hide Fitted, Nudged, FitOne, NudgeOne, Sum, KeyMass;
    SameWinner(u, v, first);
    TwoMasses<nat>(u, v, 2, 3);
    FitEntryOne([u, v], [2, 3], second, 0, u + v);
    FitEntryOne([u, v], [2, 3], second, 1, u + v);
    assert Fitted([u, v], [2, 3], second) == [u2, v2];
    var a, b := (1, 2), (1, 3);
    TwoMasses<(nat, nat)>(u2, v2, a, b);
    NudgeEntryOne([u2, v2], [a, b], share, factor, 0, u2 + v2, k, h);
    NudgeEntryOne([u2, v2], [a, b], share, factor, 1, u2 + v2, k, h);
  }

  /** A weight u left unscaled beside a weight v of the other sign that is scaled by 2: the nudge does not bring
      the two back into proportion. */
  lemma {:induction false} OutOfProportion(u: real, v: real, k: real, h: real)
    requires (u < 0.0 < v || v < 0.0 < u) && h > 0.0 && k + h < 0.0
    ensures NudgeOne(2.0 * u, 2.0 * u + 4.0 * v, k, h) != 4.0 * NudgeOne(u, u + v, k, h)
  {
    if u < 0.0 {
      ProductPositive(-(k + h), -u);
      ProductPositive(h, v);
    } else {
      ProductPositive(-(k + h), u);
      ProductPositive(h, -v);
    }
    assert k * u + h * (u + v) == (k + h) * u + h * v;
    assert k * (2.0 * u) + h * (2.0 * u + 4.0 * v) - 4.0 * (k * u + h * (u + v)) == -2.0 * ((k + h) * u);
  }

  /** After one iteration on weights of different signs, with the second targets x and y or twice these. */
  lemma {:induction false} SecondIteration(p: real, q: real, x: real, y: real, k: real, h: real)
    requires p < 0.0 < q && x > 0.0 && y > 0.0 && h > 0.0 && k + h < 0.0
    ensures var (u, v) := (FitOne(p, p + q, x), FitOne(q, p + q, y));
            var (u2, v2) := (FitOne(2.0 * p, 2.0 * p + 2.0 * q, 2.0 * x), FitOne(2.0 * q, 2.0 * p + 2.0 * q, 2.0 * y));
            || NudgeOne(u2, u2 + v2, k, h) != 4.0 * NudgeOne(u, u + v, k, h)
            || NudgeOne(v2, u2 + v2, k, h) != 4.0 * NudgeOne(v, u + v, k, h)
  {
    hide NudgeOne;
    var t := p + q;
    if t > 0.0 {
      ProductPositive(y, t);
      var v := y * t / 100.0;
      assert (2.0 * y) * (2.0 * p + 2.0 * q) / 100.0 == 4.0 * v;
      OutOfProportion(p, v, k, h);
    } else if t < 0.0 {
      ProductPositive(x, -t);
      var u := x * t / 100.0;
      assert (2.0 * x) * (2.0 * p + 2.0 * q) / 100.0 == 4.0 * u;
      OutOfProportion(q, u, k, h);
      assert 4.0 * u + 2.0 * q == 2.0 * q + 4.0 * u;
    } else {
      NothingNudged(p, k, h);
      NothingNudged(2.0 * p, k, h);
    }
  }

  lemma {:induction false} NothingNudged(u: real, k: real, h: real)
    ensures NudgeOne(u, 0.0, k, h) == u
  {
  }

  /** The winner's target is 100, those of the runners second x and y. */
  ghost predicate TargetsAre(first: map<nat, real>, second: map<nat, real>, x: real, y: real) {
    1 in first && first[1] == 100.0 && 2 in second && 3 in second && second[2] == x && second[3] == y
  }

  /** The first iteration, from even weights, towards the weights u and v. */
  lemma {:induction false} FirstIteration(entries: seq<VideoFinish>, first: map<nat, real>, second: map<nat, real>,
      share: real, factor: real, k: real, h: real, u: real, v: real)
    requires OneWinner(entries) && TargetsAre(first, second, 50.0 * u, 50.0 * v) && u > 0.0 && v > 0.0
    requires k == 1.0 - factor && h == factor * share / 100.0
    ensures FitOnce([1.0, 1.0], entries, first, second, share, factor) ==
            [NudgeOne(u, u + v, k, h), NudgeOne(v, u + v, k, h)]
  {
    hide FitOnce, OneWinner, NudgeOne;
    OneWinnerStep(entries, 1.0, 1.0, first, second, share, factor, k, h, u, v);
  }

  lemma {:induction false} TwoSteps(entries: seq<VideoFinish>, first: map<nat, real>, second: map<nat, real>,
                                    share: real, factor: real, w1: seq<real>)
    requires WellOrdered(entries) && |w1| == |entries| == 2
    requires FitOnce([1.0, 1.0], entries, first, second, share, factor) == w1
    ensures FitMany(entries, first, second, share, factor, 2) == FitOnce(w1, entries, first, second, share, factor)
  {
    hide FitOnce;
    assert FitMany(entries, first, second, share, factor, 0) == [1.0, 1.0];
    OneIteration(entries, first, second, share, factor);
  }

  /** Weights v and 1 which the first nudge takes to different signs. */
  lemma {:induction false} SplittingWeight(k: real, h: real) returns (v: real)
    requires h > 0.0 && k + h < 0.0
    ensures v > 0.0 && NudgeOne(1.0, 1.0 + v, k, h) < 0.0 < NudgeOne(v, 1.0 + v, k, h)
  {
    var r := -(k + h);
    var half := if h <= r then h / r else r / h;
    RatioPositive(h, r);
    RatioPositive(r, h);
    v := half / 2.0;
    if h <= r {
      assert half * r == h;
      Nonnegative(r - h, half);
      assert (r - h) * half == half * r - half * h;
    } else {
      assert half * h == r;
      Nonnegative(h - r, half);
      assert (h - r) * half == half * h - half * r;
    }
    assert r * v == half * r / 2.0 && h * v == half * h / 2.0;
    assert k * v + h * (1.0 + v) == h - r * v;
  }

  lemma {:induction false} TwiceNudged(k: real, h: real, u: real, t: real)
    ensures NudgeOne(2.0 * u, 2.0 * t, k, h) == 2.0 * NudgeOne(u, t, k, h)
  {
  }

  /** For pools of orders of n runners and n targets for each place only the ratios of the targets matter. */
  ghost predicate ScaleFree(n: nat, share: real, factor: real)
    requires n >= 2
  {
    forall entries: seq<VideoFinish>, first: map<nat, real>, second: map<nat, real>, a: real, b: real, m: nat |
      && (forall i | 0 <= i < |entries| :: |entries[i].order| == n) && |first| == |second| == n
      && PositiveTargets(first) && PositiveTargets(second) && HaveTargets(entries, first, second)
      && a > 0.0 && b > 0.0 ::
      ScalesBy(a, b, entries, first, second, share, factor, m)
  }

  ghost predicate ScalesBy(a: real, b: real, entries: seq<VideoFinish>, first: map<nat, real>,
                           second: map<nat, real>, share: real, factor: real, m: nat)
    requires WellOrdered(entries)
  {
    FitMany(entries, ScaledTargets(a, first), ScaledTargets(b, second), share, factor, m) ==
    Scaled(PowReal(a * b, m), FitMany(entries, first, second, share, factor, m))
  }

  /** Beyond the greatest factor a pool of two entries depends on the scale of its targets. */
  lemma {:induction false} ScaleMatters(entries: seq<VideoFinish>, first: map<nat, real>, second: map<nat, real>,
                                        share: real, factor: real, k: real, h: real, v: real)
    requires OneWinner(entries) && TargetsAre(first, second, 50.0, 50.0 * v) && v > 0.0
    requires k == 1.0 - factor && h == factor * share / 100.0 && h > 0.0 && k + h < 0.0
    requires NudgeOne(1.0, 1.0 + v, k, h) < 0.0 < NudgeOne(v, 1.0 + v, k, h)
    ensures WellOrdered(entries) && !ScalesBy(1.0, 2.0, entries, first, second, share, factor, 2)
  {
    hide FitOnce, FitMany, FitOne, NudgeOne, OneWinner;
    OneWinnerHasTwo(entries);
    var p, q, x, y := NudgeOne(1.0, 1.0 + v, k, h), NudgeOne(v, 1.0 + v, k, h), 50.0, 50.0 * v;
    var same, doubled := ScaledTargets(1.0, first), ScaledTargets(2.0, second);
    assert same == first && doubled[2] == 2.0 * x && doubled[3] == 2.0 * y;
    TwiceNudged(k, h, 1.0, 1.0 + v);
    TwiceNudged(k, h, v, 1.0 + v);
    assert 2.0 + 2.0 * v == 2.0 * (1.0 + v);
    FirstIteration(entries, first, second, share, factor, k, h, 1.0, v);
    FirstIteration(entries, same, doubled, share, factor, k, h, 2.0, 2.0 * v);
    TwoSteps(entries, first, second, share, factor, [p, q]);
    TwoSteps(entries, same, doubled, share, factor, [2.0 * p, 2.0 * q]);
    var u1, v1 := FitOne(p, p + q, x), FitOne(q, p + q, y);
    var u2 := FitOne(2.0 * p, 2.0 * p + 2.0 * q, 2.0 * x);
    var v2 := FitOne(2.0 * q, 2.0 * p + 2.0 * q, 2.0 * y);
    OneWinnerStep(entries, p, q, first, second, share, factor, k, h, u1, v1);
    OneWinnerStep(entries, 2.0 * p, 2.0 * q, same, doubled, share, factor, k, h, u2, v2);
    SecondIteration(p, q, x, y, k, h);
    FourTimes();
    var plain := FitMany(entries, first, second, share, factor, 2);
    var scaled := FitMany(entries, same, doubled, share, factor, 2);
    assert scaled[0] != 4.0 * plain[0] || scaled[1] != 4.0 * plain[1];
    assert Scaled(4.0, plain)[0] == 4.0 * plain[0] && Scaled(4.0, plain)[1] == 4.0 * plain[1];
  }

  lemma {:induction false} OneWinnerHasTwo(entries: seq<VideoFinish>)
    requires OneWinner(entries)
    ensures |entries| == 2 && WellOrdered(entries)
  {
  }

  lemma {:induction false} FourTimes()
    ensures PowReal(1.0 * 2.0, 2) == 4.0
  {
    assert PowReal(2.0, 1) == 2.0 * PowReal(2.0, 0);
  }

  /** Only the ratios of the targets matter, for every pool and any number of iterations, exactly up to the
      greatest exacta factor. */
  lemma {:induction false} ScaleFreeExactlyUpToFactor(n: nat, share: real, factor: real)
    requires n >= 2 && share > 0.0 && factor > 0.0
    ensures ScaleFree(n, share, factor) <==> factor * (100.0 - share) <= 100.0
  {
    hide FitMany, Scaled, ScaledTargets, OneWinner, ScalesBy;
    if Remainder(share, factor) >= 0.0 {
      forall entries: seq<VideoFinish>, first: map<nat, real>, second: map<nat, real>, a: real, b: real, m: nat |
        && (forall i | 0 <= i < |entries| :: |entries[i].order| == n) && |first| == |second| == n
        && PositiveTargets(first) && PositiveTargets(second) && HaveTargets(entries, first, second)
        && a > 0.0 && b > 0.0
        ensures ScalesBy(a, b, entries, first, second, share, factor, m)
      {
        ScalesWithin(a, b, entries, first, second, share, factor, m);
      }
    } else {
      var entries := TwoOrders(n);
      var k, h := 1.0 - factor, factor * share / 100.0;
      ProductPositive(factor, share);
      BeyondBound(share, factor, k, h);
      var v := SplittingWeight(k, h);
      var from := if n >= 3 then 1 else 2;
      var first, second := EvenTargets(1, n, 100.0), EvenTargets(from, n, 50.0)[3 := 50.0 * v];
      ScaleMatters(entries, first, second, share, factor, k, h, v);
      KeysOfOrders(entries, first, second);
    }
  }

  /** The target x for each of the n runners from `from` on. */
  function EvenTargets(from: nat, n: nat, x: real): (t: map<nat, real>)
    ensures |t| == n && forall r :: r in t <==> from <= r < from + n
    ensures forall r | r in t :: t[r] == x
  {
    if n == 0 then map[] else EvenTargets(from, n - 1, x)[from + n - 1 := x]
  }

  lemma {:induction false} ScalesWithin(a: real, b: real, entries: seq<VideoFinish>, first: map<nat, real>,
      second: map<nat, real>, share: real, factor: real, m: nat)
    requires a > 0.0 && b > 0.0 && share > 0.0 && factor > 0.0 && factor * (100.0 - share) <= 100.0
    requires WellOrdered(entries) && PositiveTargets(first) && PositiveTargets(second)
    requires HaveTargets(entries, first, second)
    ensures ScalesBy(a, b, entries, first, second, share, factor, m)
  {
    hide FitMany, Scaled, ScaledTargets;
    FitIsScaleFree(a, b, entries, first, second, share, factor, m);
  }

  lemma {:induction false} BeyondBound(share: real, factor: real, k: real, h: real)
    requires Remainder(share, factor) < 0.0 && k == 1.0 - factor && h == factor * share / 100.0
    ensures k + h < 0.0
  {
  }

  lemma {:induction false} KeysOfOrders(entries: seq<VideoFinish>, first: map<nat, real>, second: map<nat, real>)
    requires OneWinner(entries) && 1 in first && 2 in second && 3 in second
    ensures HaveTargets(entries, first, second)
  {
    assert FirstKeys(entries)[0] == 1 && FirstKeys(entries)[1] == 1;
    assert SecondKeys(entries)[0] == 2 && SecondKeys(entries)[1] == 3;
  }

  /** The orders 1, 2, 3, .. and 1, 3, 2, .. of n runners; for two runners 1, 2 and 1, 3. */
  lemma {:induction false} TwoOrders(n: nat) returns (entries: seq<VideoFinish>)
    requires n >= 2
    ensures OneWinner(entries) && forall i | 0 <= i < 2 :: |entries[i].order| == n
  {
    var e := VideoFinish("a", seq(n, i => i + 1));
    var d := VideoFinish("b", seq(n, i => if i == 1 then 3 else if i == 2 then 2 else i + 1));
    entries := [e, d];
    assert FirstKeys(entries) == [1, 1] && SecondKeys(entries) == [2, 3];
    assert ExactaKeys(entries) == [(1, 2), (1, 3)];
  }

  // ---------- the cumulative search ----------

  function Cumulative(w: seq<real>): (r: seq<real>)
    ensures |r| == |w|
  {
    seq(|w|, i requires 0 <= i < |w| => Prefix(w, i + 1))
  }

  /** First index from k on whose cumulative weight reaches r; |w| when none does. */
  function LinearScan(w: seq<real>, r: real, k: nat): (i: nat)
    requires k <= |w|
    ensures k <= i <= |w|
    decreases |w| - k
  {
    if k == |w| || Prefix(w, k + 1) >= r then k else LinearScan(w, r, k + 1)
  }

  lemma {:induction false} LinearScanIs(w: seq<real>, r: real, k: nat, i: nat)
    requires k <= i <= |w|
    requires forall j | k <= j < i :: Cumulative(w)[j] < r
    requires i < |w| ==> Prefix(w, i + 1) >= r
    ensures LinearScan(w, r, k) == i
    decreases |w| - k
  {
    if k < i {
      assert Cumulative(w)[k] < r;
      LinearScanIs(w, r, k + 1, i);
    }
  }

  /** sort.Search on the cumulative table finds what a scan from the front finds. */
  method Search(cumulative: seq<real>, r: real, ghost w: seq<real>) returns (i: nat)
    requires AllNonnegative(w) && cumulative == Cumulative(w)
    ensures i == LinearScan(w, r, 0)
  {
    var lo, hi := 0, |cumulative|;
    while lo < hi
      invariant lo <= hi <= |cumulative|
      invariant forall j | 0 <= j < lo :: cumulative[j] < r
      invariant hi < |cumulative| ==> cumulative[hi] >= r
    {
      var mid := (lo + hi) / 2;
      if cumulative[mid] < r {
        forall j | 0 <= j <= mid ensures cumulative[j] < r {
          PrefixMonotone(w, j + 1, mid + 1);
        }
        lo := mid + 1;
      } else {
        hi := mid;
      }
    }
    i := lo;
    LinearScanIs(w, r, 0, i);
  }

  /** The entry selected for the point r: the last one when r lies beyond the table. */
  function SelectAt(w: seq<real>, r: real): (i: nat)
    requires |w| > 0
    ensures i < |w|
  {
    var i := LinearScan(w, r, 0);
    if i >= |w| then |w| - 1 else i
  }

  /** Entry i is selected exactly for the points of (Prefix(i), Prefix(i+1)]; entry 0 also for 0. */
  lemma {:induction false} SelectedSlice(w: seq<real>, r: real, i: nat)
    requires AllNonnegative(w) && i < |w| && 0.0 <= r <= Sum(w)
    ensures SelectAt(w, r) == i <==> (i == 0 || Prefix(w, i) < r) && r <= Prefix(w, i + 1)
  {
    ScanSlice(w, r, 0, i);
  }

  lemma {:induction false} ScanSlice(w: seq<real>, r: real, k: nat, i: nat)
    requires AllNonnegative(w) && k <= i < |w| && r <= Sum(w)
    ensures LinearScan(w, r, k) < |w|
    ensures LinearScan(w, r, k) == i <==> (i == k || Prefix(w, i) < r) && r <= Prefix(w, i + 1)
    decreases |w| - k
  {
    if Prefix(w, k + 1) >= r {
      if i > k {
        PrefixMonotone(w, k + 1, i);
      }
    } else if i > k {
      ScanSlice(w, r, k + 1, i);
    } else {
      ScanEnds(w, r, k + 1);
    }
  }

  lemma {:induction false} ScanEnds(w: seq<real>, r: real, k: nat)
    requires k <= |w| && r <= Sum(w) && (k == |w| ==> Prefix(w, k) >= r)
    requires |w| > 0
    ensures k < |w| ==> LinearScan(w, r, k) < |w|
    decreases |w| - k
  {
    if k < |w| && Prefix(w, k + 1) < r {
      ScanEnds(w, r, k + 1);
    }
  }

  /** Proportional weights select the same entry for every draw. */
  lemma {:induction false} SelectionIsScaleFree(c: real, w: seq<real>, u: real)
    requires c > 0.0 && |w| > 0
    ensures SelectAt(Scaled(c, w), u * Sum(Scaled(c, w))) == SelectAt(w, u * Sum(w))
  {
    ScaledTotal(c, w);
    Rotate(c, u, Sum(w), Sum(Scaled(c, w)));
    ScanScaled(c, w, u * Sum(w), u * Sum(Scaled(c, w)), 0);
  }

  lemma {:induction false} ScanScaled(c: real, w: seq<real>, r: real, r2: real, k: nat)
    requires c > 0.0 && k <= |w| && r2 == c * r
    ensures LinearScan(Scaled(c, w), r2, k) == LinearScan(w, r, k)
    decreases |w| - k
  {
    if k < |w| {
      SumScaled(c, w, k + 1);
      CompareScaled(c, Prefix(w, k + 1), r, Prefix(Scaled(c, w), k + 1), r2);
      ScanScaled(c, w, r, r2, k + 1);
    }
  }

  // ---------- how often an entry is drawn ----------

  predicate Selects(w: seq<real>, k: nat, i: nat)
    requires |w| > 0
  {
    SelectAt(w, Point(w, k)) == i
  }

  /** Every fraction finds its entry within the table: the guard against running past the end never acts. */
  lemma {:induction false} SearchStaysInRange(w: seq<real>, k: nat)
    requires AllNonnegative(w) && |w| > 0 && k < FRACTIONS
    ensures LinearScan(w, Point(w, k), 0) < |w|
  {
    hide Sum, AllNonnegative;
    SumNonnegative(w);
    FractionBelowOne(k);
    PartOfTotal(Fraction(k), Sum(w));
    ScanSlice(w, Point(w, k), 0, 0);
  }

  lemma {:induction false} PartOfTotal(u: real, total: real)
    requires 0.0 <= u < 1.0 && total >= 0.0
    ensures u * total <= total
  {
    Nonnegative(1.0 - u, total);
  }

  lemma {:induction false} FractionBelowOne(k: nat)
    requires k < FRACTIONS
    ensures 0.0 <= Fraction(k) < 1.0
  {
  }

  /** The 53-bit fractions that select entry i. */
  function FractionsSelecting(w: seq<real>, i: nat): set<int>
    requires |w| > 0
  {
    set k | 0 <= k < FRACTIONS && Selects(w, k, i)
  }

  /** The greatest fraction at or below the cumulative weight of the first i entries. */
  function Mark(w: seq<real>, i: nat): int
    requires i <= |w| && Sum(w) > 0.0
  {
    Level(w, i).Floor
  }

  lemma {:induction false} PointBeyondMark(w: seq<real>, i: nat, k: nat)
    requires i <= |w| && k < FRACTIONS && Sum(w) > 0.0
    ensures 0.0 <= Point(w, k) < Sum(w)
    ensures Point(w, k) > Prefix(w, i) <==> k > Mark(w, i)
  {
    var x := ScaledFraction(k, Sum(w));
    FractionCompare(k, Sum(w), x, Prefix(w, i));
    FloorIs(Level(w, i), k);
  }

  lemma {:induction false} SelectBounds(w: seq<real>, i: nat, k: nat)
    requires AllNonnegative(w) && i < |w| && k < FRACTIONS && Sum(w) > 0.0
    ensures Selects(w, k, i) <==> (i == 0 || Mark(w, i) < k) && k <= Mark(w, i + 1)
  {
    hide Point, Mark;
    PointBeyondMark(w, i, k);
    PointBeyondMark(w, i + 1, k);
    SelectedSlice(w, Point(w, k), i);
  }

  lemma {:induction false} SelectInterval(w: seq<real>, i: nat, lo: int, hi: int)
    requires AllNonnegative(w) && i < |w| && Sum(w) > 0.0
    requires lo == (if i == 0 then 0 else Mark(w, i) + 1) >= 0
    requires hi == (if Mark(w, i + 1) >= FRACTIONS then FRACTIONS else Mark(w, i + 1) + 1)
    ensures FractionsSelecting(w, i) == IntRange(lo, hi)
  {
    hide Selects, Mark;
    forall k | 0 <= k < FRACTIONS ensures Selects(w, k, i) <==> lo <= k < hi {
      SelectBounds(w, i, k);
    }
  }

  /** Out of the 2^53 equally likely fractions, entry i is drawn by its exact share up to one. */
  lemma {:induction false} SelectFrequency(w: seq<real>, i: nat)
    requires AllNonnegative(w) && i < |w| && Sum(w) > 0.0
    ensures FairPart(w, i) - 1.0 <= |FractionsSelecting(w, i)| as real <= FairPart(w, i) + 1.0
  {
    hide Sum, Prefix, Level, FairPart, Selects, AllNonnegative;
    CumulativeShares(w, i);
    var a, b := Level(w, i), Level(w, i + 1);
    FloorIs(a, 0);
    FloorIs(b, FRACTIONS);
    var lo := if i == 0 then 0 else Mark(w, i) + 1;
    var hi := if Mark(w, i + 1) >= FRACTIONS then FRACTIONS else Mark(w, i + 1) + 1;
    MarkBounds(a, b);
    SelectInterval(w, i, lo, hi);
  }

  lemma {:induction false} MarkBounds(a: real, b: real)
    requires 0.0 <= a <= b <= FRACTIONS as real
    ensures 0 <= a.Floor <= b.Floor <= FRACTIONS
  {
  }

  /** A weight of zero does not protect the first entry: the fraction 0 always selects it. */
  lemma {:induction false} FractionZeroSelectsFirst(w: seq<real>)
    requires |w| > 0 && w[0] >= 0.0
    ensures Selects(w, 0, 0)
  {
    assert Prefix(w, 1) == Prefix(w, 0) + w[0];
  }

  // ---------- building a selector and drawing ----------

  function Iterations(cfg: Config): nat {
    if cfg.iterations <= 0 then 50 else cfg.iterations
  }

  function ExactaFactor(cfg: Config): real {
    if cfg.exactaFactor <= 0.0 then 0.2 else cfg.exactaFactor
  }

  /** The share of each ordered pair of runners when all are alike: together they make up the whole. */
  function ExactaShare(cfg: Config): (share: real)
    requires cfg.competitors >= 2
    ensures share * (cfg.competitors * (cfg.competitors - 1)) as real == 100.0
  {
    100.0 / (cfg.competitors * (cfg.competitors - 1)) as real
  }

  /** The first reason to refuse a pool, in the order the checks are made. */
  function Refusal(entries: seq<VideoFinish>, cfg: Config): Option<Error> {
    if |entries| == 0 then Some(EmptyPool)
    else if cfg.competitors < 2 then Some(TooFewCompetitors)
    else if |cfg.first| != cfg.competitors then Some(BadFirstTargets)
    else if |cfg.second| != cfg.competitors then Some(BadSecondTargets)
    else BadEntry(entries, cfg.competitors, 0)
  }

  function BadEntry(entries: seq<VideoFinish>, n: int, i: nat): Option<Error>
    requires i <= |entries|
    decreases |entries| - i
  {
    if i == |entries| then None
    else if |entries[i].order| != n then Some(BadOrder(entries[i].id))
    else BadEntry(entries, n, i + 1)
  }

  function FittedWeights(entries: seq<VideoFinish>, cfg: Config): (w: seq<real>)
    requires WellOrdered(entries) && cfg.competitors >= 2
    ensures |w| == |entries|
  {
    FitMany(entries, cfg.first, cfg.second, ExactaShare(cfg), ExactaFactor(cfg), Iterations(cfg))
  }

  method CheckOrders(entries: seq<VideoFinish>, n: int) returns (bad: Option<Error>)
    ensures bad == BadEntry(entries, n, 0)
    ensures bad == None ==> forall i | 0 <= i < |entries| :: |entries[i].order| == n
  {
    for i := 0 to |entries|
      invariant BadEntry(entries, n, i) == BadEntry(entries, n, 0)
      invariant forall j | 0 <= j < i :: |entries[j].order| == n
    {
      if |entries[i].order| != n {
        return Some(BadOrder(entries[i].id));
      }
    }
    bad := None;
  }

  method Accumulate(w: seq<real>) returns (cumulative: seq<real>, total: real)
    ensures cumulative == Cumulative(w) && total == Sum(w)
  {
    cumulative, total := [], 0.0;
    for i := 0 to |w|
      invariant cumulative == Cumulative(w)[..i] && total == Prefix(w, i)
    {
      total := total + w[i];
      cumulative := cumulative + [total];
    }
  }

  method New(entries: seq<VideoFinish>, cfg: Config) returns (r: Result<Selector>)
    ensures r.Err? <==> Refusal(entries, cfg).Some?
    ensures r.Err? ==> Refusal(entries, cfg) == Some(r.error)
    ensures r.Ok? ==> WellOrdered(entries) && cfg.competitors >= 2 && |entries| > 0
    ensures r.Ok? ==> var w := FittedWeights(entries, cfg); r.value == Selector(entries, Cumulative(w), Sum(w))
    ensures r.Ok? ==>
              FittedWeights(entries, cfg) ==
                FitMany(entries, cfg.first, cfg.second, 100.0 / (cfg.competitors * (cfg.competitors - 1)) as real,
                        if cfg.exactaFactor > 0.0 then cfg.exactaFactor else 0.2,
                        if cfg.iterations > 0 then cfg.iterations else 50)
  {
    hide Fitted, Nudged, Sum, Refusal, Cumulative;
    var refused := Refuse(entries, cfg);
    if refused.Some? {
      return Err(refused.value);
    }
    RefusalNone(entries, cfg);
    var first, second, exacta := FirstKeys(entries), SecondKeys(entries), ExactaKeys(entries);
    var firstIdx := VideoSelector.BuildIndex(first);
    var secondIdx := VideoSelector.BuildIndex(second);
    var exactaIdx := VideoSelector.BuildIndex(exacta);
    var weights := new real[|entries|](i => 1.0);
    assert weights[..] == seq(|entries|, i => 1.0);
    var share, factor := ExactaShare(cfg), ExactaFactor(cfg);
    for iter := 0 to Iterations(cfg)
      invariant weights[..] == FitMany(entries, cfg.first, cfg.second, share, factor, iter)
    {
      VideoSelector.IpfStep(weights, firstIdx, cfg.first, first);
      VideoSelector.IpfStep(weights, secondIdx, cfg.second, second);
      VideoSelector.IpfExactaStep(weights, exactaIdx, share, factor, exacta);
    }
    var cumulative, total := Accumulate(weights[..]);
    r := Ok(Selector(entries, cumulative, total));
  }

  method Refuse(entries: seq<VideoFinish>, cfg: Config) returns (refused: Option<Error>)
    ensures refused == Refusal(entries, cfg)
  {
    if |entries| == 0 {
      return Some(EmptyPool);
    }
    if cfg.competitors < 2 {
      return Some(TooFewCompetitors);
    }
    if |cfg.first| != cfg.competitors {
      return Some(BadFirstTargets);
    }
    if |cfg.second| != cfg.competitors {
      return Some(BadSecondTargets);
    }
    refused := CheckOrders(entries, cfg.competitors);
  }

  lemma {:induction false} RefusalNone(entries: seq<VideoFinish>, cfg: Config)
    requires Refusal(entries, cfg) == None
    ensures WellOrdered(entries) && cfg.competitors >= 2 && |entries| > 0
  {
    GoodEntries(entries, cfg.competitors, 0);
  }

  lemma {:induction false} GoodEntries(entries: seq<VideoFinish>, n: int, i: nat)
    requires i <= |entries| && BadEntry(entries, n, i) == None
    ensures forall j | i <= j < |entries| :: |entries[j].order| == n
    decreases |entries| - i
  {
    if i < |entries| {
      GoodEntries(entries, n, i + 1);
    }
  }

  /** One draw: the two words at the source's position, scaled to the total, select an entry. */
  method Select(s: Selector, src: Source, ghost w: seq<real>) returns (e: VideoFinish)
    requires AllNonnegative(w) && |w| == |s.entries| > 0
    requires s.cumulative == Cumulative(w) && s.totalW == Sum(w)
    modifies src
    ensures src.pos == old(src.pos) + 2
    ensures var k := FractionIndex(src.words(old(src.pos)), src.words(old(src.pos) + 1));
            exists i | 0 <= i < |s.entries| :: Selects(w, k, i) && e == s.entries[i]
  {
    hide Sum, LinearScan, Cumulative;
    ghost var k := FractionIndex(src.words(src.pos), src.words(src.pos + 1));
    var u := CertifiedFloat(src);
    var r := u * s.totalW;
    assert r == Point(w, k);
    var i := Search(s.cumulative, r, w);
    if i >= |s.entries| {
      i := |s.entries| - 1;
    }
    assert Selects(w, k, i);
    e := s.entries[i];
  }

  // ---------- the fit that New makes ----------

  /** On a pool in which all ordered pairs of runners finish first and second, the exacta step as New makes it leaves
      the total weight unchanged. */
  lemma {:induction false} ExactaStepKeepsTotal(entries: seq<VideoFinish>, cfg: Config, w: seq<real>,
                                                pairs: seq<(nat, nat)>)
    requires WellOrdered(entries) && cfg.competitors >= 2 && AllPositive(w) && 0 < |w| == |entries|
    requires Lists(pairs, ExactaKeys(entries)) && Occur(pairs, ExactaKeys(entries))
    requires |pairs| == cfg.competitors * (cfg.competitors - 1)
    ensures Sum(Nudged(w, ExactaKeys(entries), ExactaShare(cfg), ExactaFactor(cfg))) == Sum(w)
  {
    hide Nudged, Sum;
    NudgedTotalUnchanged(w, ExactaKeys(entries), ExactaFactor(cfg), pairs);
  }

  /** Two runners and two entries, one iteration with the default factor: the table of the selector. */
  lemma {:induction false} SmallPoolTable(entries: seq<VideoFinish>, cfg: Config)
    requires |entries| == 2 && entries[0].order == [1, 2] && entries[1].order == [2, 1]
    requires cfg == Config(2, map[1 := 90.0, 2 := 10.0], map[2 := 60.0, 1 := 40.0], 1, 0.0)
    ensures FittedWeights(entries, cfg) == [1.16, 0.84] && Cumulative([1.16, 0.84]) == [1.16, 2.0]
  {
    hide Fitted, Nudged, Share;
    var fs: seq<nat>, ss: seq<nat>, es: seq<(nat, nat)> := [1, 2], [2, 1], [(1, 2), (2, 1)];
    assert FirstKeys(entries) == fs && SecondKeys(entries) == ss && ExactaKeys(entries) == es;
    FitTwo(1.0, 1.0, 1, 2, cfg.first, 50.0, 50.0, 1.8, 0.2);
    FitTwo(1.8, 0.2, 2, 1, cfg.second, 90.0, 10.0, 1.2, 0.8);
    NudgeTwo(1.2, 0.8, (1, 2), (2, 1), 50.0, 0.2, 60.0, 40.0, 1.16, 0.84);
    assert ExactaShare(cfg) == 50.0;
    OneIteration(entries, cfg.first, cfg.second, 50.0, 0.2);
    assert FitMany(entries, cfg.first, cfg.second, 50.0, 0.2, 0) == [1.0, 1.0];
    var w := [1.16, 0.84];
    assert Prefix(w, 2) == Prefix(w, 1) + 0.84 && Prefix(w, 1) == Prefix(w, 0) + 1.16;
  }

  /** When New refuses a pool, and for which reason: the first that applies of an empty pool, fewer than two runners, a
      wrong number of first or second targets, and an order of the wrong length. */
  lemma {:induction false} RefusalReasons(entries: seq<VideoFinish>, cfg: Config)
    ensures Refusal(entries, cfg) == None <==>
              && |entries| > 0 && cfg.competitors >= 2 && |cfg.first| == |cfg.second| == cfg.competitors
              && forall i | 0 <= i < |entries| :: |entries[i].order| == cfg.competitors
    ensures Refusal(entries, cfg) == Some(EmptyPool) <==> entries == []
    ensures Refusal(entries, cfg) == Some(TooFewCompetitors) <==> entries != [] && cfg.competitors < 2
    ensures Refusal(entries, cfg) == Some(BadFirstTargets) <==>
              entries != [] && cfg.competitors >= 2 && |cfg.first| != cfg.competitors
    ensures Refusal(entries, cfg) == Some(BadSecondTargets) <==>
              entries != [] && cfg.competitors >= 2 && |cfg.first| == cfg.competitors != |cfg.second|
    ensures forall id :: Refusal(entries, cfg) == Some(BadOrder(id)) ==> exists i :: FirstBadOrder(entries, cfg, id, i)
  {
    BadEntryIs(entries, cfg, 0);
  }

  ghost predicate FirstBadOrder(entries: seq<VideoFinish>, cfg: Config, id: string, i: nat) {
    && i < |entries| && |entries[i].order| != cfg.competitors && entries[i].id == id
    && forall j | 0 <= j < i :: |entries[j].order| == cfg.competitors
  }

  lemma {:induction false} BadEntryIs(entries: seq<VideoFinish>, cfg: Config, i: nat)
    requires i <= |entries| && cfg.competitors >= 2 ==> forall j | 0 <= j < i :: |entries[j].order| == cfg.competitors
    requires i <= |entries|
    ensures cfg.competitors >= 2 ==>
              match BadEntry(entries, cfg.competitors, i)
              case None => forall j | 0 <= j < |entries| :: |entries[j].order| == cfg.competitors
              case Some(e) => e.BadOrder? && exists k :: FirstBadOrder(entries, cfg, e.id, k)
    decreases |entries| - i
  {
    if cfg.competitors >= 2 && i < |entries| {
      if |entries[i].order| != cfg.competitors {
        assert FirstBadOrder(entries, cfg, entries[i].id, i);
      } else {
        BadEntryIs(entries, cfg, i + 1);
      }
    }
  }
}
