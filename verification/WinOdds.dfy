/** The WIN odds of a race (generateWinOdds of internal/racegen/generators/odds.go): attempts that
    must meet the overround target, and a fallback; each result is assigned along the finish order. */
module WinOdds {
  import opened Arithmetic
  import opened Basics
  import opened Options
  import opened CertifiedDraws
  import opened ClampedNormal
  import opened Ordering
  import opened OddsVector
  import opened Coupling
  import FinishPool

  const ATTEMPTS: nat := 100

  datatype Settings = Settings(n: nat, constraints: seq<Spread>, rankSpace: bool, gaps: seq<Spread>, limits: Limits,
                               tolerance: real, target: real, shift: real, sigma: real, shapeSigma: real,
                               flattenSigma: real, model: Model)

  /** What the configurations that ship satisfy. The validation at start-up checks the number of positions, the
      gaps and the limits; it leaves the positions' minima, the target and a maximum that does not round to zero
      to the author of the configuration. */
  ghost predicate ValidConfig(c: Settings) {
    && 0 < c.n < WORDS && |c.constraints| == c.n && |c.gaps| == c.n - 1
    && (forall i | 0 <= i < c.n :: 0.0 < c.constraints[i].min <= c.constraints[i].max)
    && (forall i | 0 <= i < c.n - 1 :: Ordered(c.gaps[i]))
    && Round1(c.limits.hard) > 0.0 && c.target > 0.0
  }

  type Config = c: Settings | ValidConfig(c)
    witness Settings(1, [Spread(1.0, 0.0, 1.0, 1.0)], false, [], Bounds(1.0, 1.0, 3.0), 0.0, 1.0, 0.0, 0.0, 0.0, 0.0,
                     Model(false, [], 1.0))

  function Abs(x: real): real {
    if x < 0.0 then -x else x
  }

  predicate AllAboveZero(v: seq<real>) {
    forall i | 0 <= i < |v| :: v[i] > 0.0
  }

  /** The acceptance test; with odds of zero the overround is infinite and never accepted. */
  predicate Accepted(v: seq<real>, target: real, tolerance: real) {
    AllAboveZero(v) && Abs(Overround(v) - target) <= tolerance
  }

  // ---------- the drawn target and shape ----------

  /** The standard normal within four deviations. */
  const UNIT: Spread := Spread(0.0, 1.0, -4.0, 4.0)

  predicate FixedTarget(c: Config) {
    c.sigma <= 0.0 || c.shift <= 0.0 || c.shift >= c.target
  }

  /** The log-normal factor of deviation sigma. */
  function LogNormal(m: Analysis, sigma: real, z: real): real {
    m.exp(sigma * z)
  }

  lemma {:induction false} LogNormalIs(m: Analysis, sigma: real, z: real, x: real)
    requires x == sigma * z
    ensures LogNormal(m, sigma, z) == m.exp(x)
  {
  }

  /** The log-normal part of the target, above its shift. */
  function Margin(m: Analysis, c: Config, z: real): real {
    (c.target - c.shift) * LogNormal(m, c.sigma, z)
  }

  lemma {:induction false} MarginIs(m: Analysis, c: Config, z: real, e: real, x: real)
    requires e == LogNormal(m, c.sigma, z) && x == (c.target - c.shift) * e
    ensures Margin(m, c, z) == x
  {
    hide LogNormal;
  }

  /** The overround target that the normal z leads to. */
  function TargetFor(m: Analysis, c: Config, z: real): real {
    if FixedTarget(c) then c.target else
      var ov := c.shift + Margin(m, c, z);
      if ov < c.shift then c.shift else if ov > c.target + 0.08 then c.target + 0.08 else ov
  }

  lemma {:induction false} MarginOrdered(m: Analysis, c: Config, y: real, z: real)
    requires !FixedTarget(c) && y <= z
    ensures 0.0 < Margin(m, c, y) <= Margin(m, c, z) && Margin(m, c, 0.0) == c.target - c.shift
  {
    hide LogNormal;
    LogNormalOrdered(m, c.sigma, y, z);
    LogNormalOrdered(m, c.sigma, 0.0, 0.0);
    var span, d, e := c.target - c.shift, LogNormal(m, c.sigma, y), LogNormal(m, c.sigma, z);
    ProductOrder(d, e, span);
    MarginIs(m, c, y, d, span * d);
    MarginIs(m, c, z, e, span * e);
    MarginIs(m, c, 0.0, 1.0, span);
  }

  lemma {:induction false} LogNormalOrdered(m: Analysis, sigma: PosReal, y: real, z: real)
    requires y <= z
    ensures 0.0 < LogNormal(m, sigma, y) <= LogNormal(m, sigma, z) && LogNormal(m, sigma, 0.0) == 1.0
  {
    ProductOrder(y, z, sigma);
    LogNormalIs(m, sigma, y, sigma * y);
    LogNormalIs(m, sigma, z, sigma * z);
    LogNormalIs(m, sigma, 0.0, 0.0);
  }

  /** The target stays in its band, moves up with the normal, and is the configured one at its median. */
  lemma {:induction false} TargetInBand(m: Analysis, c: Config, y: real, z: real)
    requires y <= z
    ensures 0.0 < TargetFor(m, c, y) <= TargetFor(m, c, z) <= c.target + 0.08
    ensures !FixedTarget(c) ==> c.shift <= TargetFor(m, c, y)
    ensures TargetFor(m, c, 0.0) == c.target
  {
    hide Margin, Lawful, ValidConfig;
    TargetPositive(c);
    if !FixedTarget(c) {
      MarginOrdered(m, c, y, z);
    }
  }

  lemma {:induction false} TargetPositive(c: Config)
    ensures c.target > 0.0
  {
  }

  /** The concentration that the normal z leads to: a flatter field below zero, a more concentrated one above. */
  function ShapeFor(m: Analysis, c: Config, z: real): real {
    if c.shapeSigma <= 0.0 then 1.0
    else if z < 0.0 && c.flattenSigma > 0.0 then LogNormal(m, c.flattenSigma, z)
    else LogNormal(m, c.shapeSigma, z)
  }

  /** The concentration is positive and moves up with the normal, across the change of deviation at zero; at
      zero the shape stays as it is. */
  lemma {:induction false} ShapeFollowsNormal(m: Analysis, c: Config, y: real, z: real)
    requires y <= z
    ensures 0.0 < ShapeFor(m, c, y) <= ShapeFor(m, c, z)
    ensures ShapeFor(m, c, 0.0) == 1.0
  {
    hide Lawful, ValidConfig, LogNormal;
    if c.shapeSigma > 0.0 {
      var middle := if y > 0.0 then y else if z < 0.0 then z else 0.0;
      LogNormalOrdered(m, c.shapeSigma, y, middle);
      LogNormalOrdered(m, c.shapeSigma, middle, z);
      if c.flattenSigma > 0.0 {
        LogNormalOrdered(m, c.flattenSigma, y, middle);
      }
    }
  }

  function TargetAt(m: Analysis, c: Config, words: nat -> Word, p: nat): (t: PosReal) {
    TargetInBand(m, c, ClampedAt(m.normal, words, p, UNIT), ClampedAt(m.normal, words, p, UNIT));
    TargetFor(m, c, ClampedAt(m.normal, words, p, UNIT))
  }

  function TargetEnd(m: Analysis, c: Config, words: nat -> Word, p: nat): nat {
    if FixedTarget(c) then p else ClampedEnd(m.normal, words, p, UNIT)
  }

  method DrawOverroundTarget(m: Analysis, src: Source, c: Config) returns (ov: real)
    modifies src
    ensures ov == TargetAt(m, c, src.words, old(src.pos)) && src.pos == TargetEnd(m, c, src.words, old(src.pos))
  {
    hide Lawful, ValidConfig, ClampedAt, ClampedEnd, LogNormal, Margin;
    if c.sigma <= 0.0 || c.shift <= 0.0 || c.shift >= c.target {
      return c.target;
    }
    var z := Clamped(m.normal, src, UNIT);
    var x := c.sigma * z;
    LogNormalIs(m, c.sigma, z, x);
    var above := (c.target - c.shift) * m.exp(x);
    MarginIs(m, c, z, m.exp(x), above);
    ov := c.shift + above;
    var lo, hi := c.shift, c.target + 0.08;
    if ov < lo {
      ov := lo;
    } else if ov > hi {
      ov := hi;
    }
  }

  function ShapeAt(m: Analysis, c: Config, words: nat -> Word, p: nat): (k: PosReal) {
    ShapeFollowsNormal(m, c, ClampedAt(m.normal, words, p, UNIT), ClampedAt(m.normal, words, p, UNIT));
    ShapeFor(m, c, ClampedAt(m.normal, words, p, UNIT))
  }

  function ShapeEnd(m: Analysis, c: Config, words: nat -> Word, p: nat): nat {
    if c.shapeSigma <= 0.0 then p else ClampedEnd(m.normal, words, p, UNIT)
  }

  method DrawShapeConcentration(m: Analysis, src: Source, c: Config) returns (kappa: real)
    modifies src
    ensures kappa == ShapeAt(m, c, src.words, old(src.pos)) && src.pos == ShapeEnd(m, c, src.words, old(src.pos))
  {
    hide Lawful, ValidConfig, ClampedAt, ClampedEnd, LogNormal;
    if c.shapeSigma <= 0.0 {
      return 1.0;
    }
    var z := Clamped(m.normal, src, UNIT);
    var sigma := c.shapeSigma;
    if z < 0.0 && c.flattenSigma > 0.0 {
      sigma := c.flattenSigma;
    }
    var x := sigma * z;
    LogNormalIs(m, sigma, z, x);
    kappa := m.exp(x);
  }

  // ---------- rank space ----------

  /** Ordered odds within the limits. */
  ghost predicate RankSpaceOdds(c: Config, v: seq<real>) {
    |v| == c.n && Nondecreasing(v) && Bounded(v, Round1(c.limits.floor), Round1(c.limits.hard))
  }

  /** The rank-space vector of a drawn favourite and drawn gaps: concentrated, rescaled to the target, and
      limited and rounded value by value. */
  ghost function RankSpaceVector(m: Analysis, c: Config, favourite: PosReal, gaps: seq<real>, target: PosReal,
                                 kappa: PosReal): (v: seq<real>)
    ensures |v| == |gaps| + 1
  {
    RankVectorOrdered(favourite, gaps);
    ConcentratedOrdered(m, RankVector(favourite, gaps), kappa);
    var s := Concentrated(m, RankVector(favourite, gaps), kappa);
    Adjusted(s, Overround(s) / target, c.limits)
  }

  /** Whatever is drawn, the vector is in order by rank and within the limits. */
  lemma {:induction false} DrawnIsOrdered(m: Analysis, c: Config, favourite: PosReal, gaps: seq<real>,
                                          target: PosReal, kappa: PosReal)
    requires |gaps| == c.n - 1
    ensures RankSpaceOdds(c, RankSpaceVector(m, c, favourite, gaps, target, kappa))
  {
    hide Lawful, Concentrated, AdjustedOdds, Overround, Round1, Nondecreasing, Bounded;
    RankVectorOrdered(favourite, gaps);
    ConcentratedOrdered(m, RankVector(favourite, gaps), kappa);
    var s := Concentrated(m, RankVector(favourite, gaps), kappa);
    FactorPositive(s, target);
    AdjustedOrdered(s, Overround(s) / target, c.limits);
  }

  lemma {:induction false} FactorPositive(s: seq<real>, target: PosReal)
    requires |s| > 0 && AllPositive(s)
    ensures Overround(s) / target > 0.0
  {
    hide Overround;
    OverroundPositive(s);
  }

  lemma {:induction false} NoGaps(favourite: real)
    ensures RankVector(favourite, []) == [favourite]
  {
  }

  lemma {:induction false} RankVectorNext(favourite: real, gaps: seq<real>, gap: real)
    ensures |RankVector(favourite, gaps)| == |gaps| + 1
    ensures RankVector(favourite, gaps + [gap]) ==
            RankVector(favourite, gaps) + [RankVector(favourite, gaps)[|gaps|] + NonNegative(gap)]
  {
    assert (gaps + [gap])[..|gaps|] == gaps;
  }

  method AdjustAll(s: seq<real>, factor: real, l: Limits) returns (adjusted: seq<real>)
    ensures adjusted == Adjusted(s, factor, l)
  {
    hide AdjustedOdds, Round1, SoftCap;
    adjusted := [];
    for i := 0 to |s|
      invariant |adjusted| == i && forall j | 0 <= j < i :: adjusted[j] == AdjustedOdds(s[j], factor, l)
    {
      var v := s[i] * factor;
      AdjustedStep(s[i], factor, l, v);
      if v < l.floor {
        v := l.floor;
      }
      v := SoftCap(v, l.soft, l.hard);
      adjusted := adjusted + [Round1(v)];
    }
  }

  // ---------- position by position ----------

  function Limited(v: real, d: Spread): real {
    Round1(if v < d.min then d.min else if v > d.max then d.max else v)
  }

  function LimitedOdds(v: real, factor: real, d: Spread): real {
    Limited(v * factor, d)
  }

  lemma {:induction false} LimitedStep(v: real, factor: real, d: Spread, x: real)
    requires x == v * factor
    ensures LimitedOdds(v, factor, d) == Limited(x, d)
  {
  }

  /** Every position's raw odds rescaled, limited to the position's range and rounded. */
  ghost function PositionVector(m: Analysis, c: Config, raw: seq<real>, target: PosReal, kappa: PosReal): (v: seq<real>)
    requires |raw| == c.n && AllPositive(raw)
    ensures |v| == c.n
  {
    ConcentratedPositive(m, raw, kappa);
    var s := Concentrated(m, raw, kappa);
    var factor := Overround(s) / target;
    seq(c.n, i requires 0 <= i < c.n => LimitedOdds(s[i], factor, c.constraints[i]))
  }

  method LimitAll(s: seq<real>, factor: real, constraints: seq<Spread>) returns (adjusted: seq<real>)
    requires |constraints| == |s|
    ensures |adjusted| == |s| && forall i | 0 <= i < |s| :: adjusted[i] == LimitedOdds(s[i], factor, constraints[i])
  {
    hide Round1, LimitedOdds;
    adjusted := [];
    for i := 0 to |s|
      invariant |adjusted| == i && forall j | 0 <= j < i :: adjusted[j] == LimitedOdds(s[j], factor, constraints[j])
    {
      var d := constraints[i];
      var v := s[i] * factor;
      LimitedStep(s[i], factor, d, v);
      if v < d.min {
        v := d.min;
      } else if v > d.max {
        v := d.max;
      }
      adjusted := adjusted + [Round1(v)];
    }
  }

  /** Each position's odds end between its rounded minimum and maximum. */
  lemma {:induction false} PositionLimits(m: Analysis, c: Config, raw: seq<real>, target: PosReal, kappa: PosReal,
                                          i: nat)
    requires i < c.n == |raw| && AllPositive(raw)
    ensures var v := PositionVector(m, c, raw, target, kappa);
            Round1(c.constraints[i].min) <= v[i] <= Round1(c.constraints[i].max)
  {
    hide Lawful, Concentrated, Overround, Round1, LimitedOdds;
    ConcentratedPositive(m, raw, kappa);
    var s, d := Concentrated(m, raw, kappa), c.constraints[i];
    LimitedInRange(s[i], Overround(s) / target, d);
  }

  lemma {:induction false} LimitedInRange(s: real, factor: real, d: Spread)
    requires Ordered(d)
    ensures Round1(d.min) <= LimitedOdds(s, factor, d) <= Round1(d.max)
  {
    hide Round1, LimitedOdds;
    var x := s * factor;
    LimitedStep(s, factor, d, x);
    var v := if x < d.min then d.min else if x > d.max then d.max else x;
    RoundOrdered(d.min, v);
    RoundOrdered(v, d.max);
  }

  // ---------- the attempts ----------

  /** What an attempt draws: the favourite and the gaps, or a value for each position. */
  function Spreads(c: Config): (ds: seq<Spread>)
    ensures |ds| == c.n
  {
    if c.rankSpace then [c.constraints[0]] + c.gaps else c.constraints
  }

  /** The attempts of one race, from the position on that the words of its target and shape leave. */
  datatype Attempts = Attempts(m: Analysis, c: Config, words: nat -> Word, start: nat, target: PosReal, kappa: PosReal)

  /** Where the word stream stands before attempt k. */
  function AttemptStart(a: Attempts, k: nat): nat {
    if k == 0 then a.start else DrawsEnd(a.m.normal, a.words, AttemptStart(a, k - 1), Spreads(a.c))
  }

  function DrawnAt(a: Attempts, p: nat): (raw: seq<real>)
    ensures |raw| == a.c.n
  {
    Drawn(a.m.normal, a.words, p, Spreads(a.c))
  }

  lemma {:induction false} DrawnWithin(a: Attempts, p: nat)
    ensures DrawnAt(a, p)[0] > 0.0
    ensures forall i | 0 <= i < a.c.n :: InRange(DrawnAt(a, p)[i], Spreads(a.c)[i])
    ensures !a.c.rankSpace ==> AllPositive(DrawnAt(a, p))
  {
    hide Drawn;
    DrawnInRange(a.m.normal, a.words, p, Spreads(a.c));
    assert InRange(DrawnAt(a, p)[0], Anchor(a.c));
  }

  function Anchor(c: Config): Spread {
    c.constraints[0]
  }

  /** The vector of the attempt that starts at position p. */
  ghost function VectorAt(a: Attempts, p: nat): (v: seq<real>)
    ensures |v| == a.c.n
  {
    DrawnWithin(a, p);
    var raw := DrawnAt(a, p);
    if a.c.rankSpace then RankSpaceVector(a.m, a.c, raw[0], raw[1..], a.target, a.kappa)
    else PositionVector(a.m, a.c, raw, a.target, a.kappa)
  }

  /** In rank space every attempt is in order and within the limits; otherwise every position is within its own. */
  lemma {:induction false} AttemptWithinLimits(a: Attempts, p: nat)
    ensures a.c.rankSpace ==> RankSpaceOdds(a.c, VectorAt(a, p))
    ensures !a.c.rankSpace ==>
              forall i | 0 <= i < a.c.n ::
                Round1(a.c.constraints[i].min) <= VectorAt(a, p)[i] <= Round1(a.c.constraints[i].max)
  {
    hide RankSpaceOdds, RankSpaceVector, PositionVector, Round1, VectorAt, Drawn;
    AttemptFromDraws(a, p);
    var raw := Drawn(a.m.normal, a.words, p, Spreads(a.c));
    if a.c.rankSpace {
      DrawnIsOrdered(a.m, a.c, raw[0], raw[1..], a.target, a.kappa);
    } else {
      forall i | 0 <= i < a.c.n
        ensures Round1(a.c.constraints[i].min) <= VectorAt(a, p)[i] <= Round1(a.c.constraints[i].max)
      {
        PositionLimits(a.m, a.c, raw, a.target, a.kappa, i);
      }
    }
  }

  ghost predicate Succeeds(a: Attempts, k: nat) {
    Accepted(VectorAt(a, AttemptStart(a, k)), a.target, a.c.tolerance)
  }

  /** The first attempt from k on that is accepted; max when none is. */
  ghost function FirstSuccess(a: Attempts, k: nat, max: nat): (r: nat)
    requires k <= max
    ensures k <= r <= max
    decreases max - k
  {
    if k == max || Succeeds(a, k) then k else FirstSuccess(a, k + 1, max)
  }

  lemma {:induction false} FirstSuccessIs(a: Attempts, k: nat, max: nat)
    requires k <= max
    ensures forall i | k <= i < FirstSuccess(a, k, max) :: !Succeeds(a, i)
    ensures FirstSuccess(a, k, max) < max ==> Succeeds(a, FirstSuccess(a, k, max))
    decreases max - k
  {
    hide Succeeds;
    if k < max && !Succeeds(a, k) {
      FirstSuccessIs(a, k + 1, max);
    }
  }

  /** One attempt in rank space: the favourite, the gaps, concentration, rescaling, floor, soft cap, rounding. */
  method RankSpaceAttempt(src: Source, m: Analysis, c: Config, target: PosReal, kappa: PosReal, ghost a: Attempts)
      returns (adjusted: seq<real>)
    requires a == Attempts(m, c, src.words, a.start, target, kappa) && c.rankSpace
    modifies src
    ensures adjusted == VectorAt(a, old(src.pos))
    ensures src.pos == DrawsEnd(m.normal, src.words, old(src.pos), Spreads(c))
  {
    hide Lawful, Concentrated, AdjustedOdds, Overround, Round1, Nondecreasing, RankVector, Adjusted, ClampedAt,
      ClampedEnd, Drawn, DrawsEnd;
    ghost var p, g, words := src.pos, m.normal, src.words;
    var s := new real[c.n](i => 0.0);
    FirstDraw(g, words, p, c);
    s[0] := Clamped(m.normal, src, c.constraints[0]);
    var favourite := s[0];
    ghost var gaps: seq<real> := [];
    NoGaps(favourite);
    assert s[..1] == [favourite];
    for r := 1 to c.n
      invariant |gaps| == r - 1 && s[..r] == RankVector(favourite, gaps)
      invariant Drawn(g, words, p, [c.constraints[0]] + c.gaps[..r - 1]) == [favourite] + gaps
      invariant src.pos == DrawsEnd(g, words, p, [c.constraints[0]] + c.gaps[..r - 1])
    {
      NextGap(g, words, p, c, r);
      var gap := Clamped(m.normal, src, c.gaps[r - 1]);
      RankVectorNext(favourite, gaps, gap);
      assert [favourite] + gaps + [gap] == [favourite] + (gaps + [gap]);
      gaps := gaps + [gap];
      if gap < 0.0 {
        gap := 0.0;
      }
      s[r] := s[r - 1] + gap;
      assert s[..r + 1] == s[..r] + [s[r]];
    }
    assert c.gaps[..c.n - 1] == c.gaps && s[..c.n] == s[..];
    DrawnWithin(a, p);
    assert DrawnAt(a, p) == [favourite] + gaps && ([favourite] + gaps)[1..] == gaps;
    RankVectorOrdered(favourite, gaps);
    var start := s[..];
    ConcentratedOrdered(m, start, kappa);
    ApplyShapeConcentration(m, s, kappa);
    var shaped := s[..];
    var overround := CalcOverround(shaped);
    adjusted := AdjustAll(shaped, overround / target, c.limits);
  }

  lemma {:induction false} FirstDraw(g: BoxMuller, words: nat -> Word, p: nat, c: Config)
    ensures [c.constraints[0]] + c.gaps[..0] == [c.constraints[0]]
    ensures Drawn(g, words, p, [c.constraints[0]]) == [ClampedAt(g, words, p, c.constraints[0])]
    ensures DrawsEnd(g, words, p, [c.constraints[0]]) == ClampedEnd(g, words, p, c.constraints[0])
  {
    hide ClampedAt, ClampedEnd;
    NoDraws(g, words, p);
    OneMoreDraw(g, words, p, [], c.constraints[0]);
    assert [] + [c.constraints[0]] == [c.constraints[0]];
  }

  lemma {:induction false} NextGap(g: BoxMuller, words: nat -> Word, p: nat, c: Config, r: nat)
    requires 1 <= r < c.n
    ensures var before, after := [c.constraints[0]] + c.gaps[..r - 1], [c.constraints[0]] + c.gaps[..r];
            && Drawn(g, words, p, after) ==
                 Drawn(g, words, p, before) + [ClampedAt(g, words, DrawsEnd(g, words, p, before), c.gaps[r - 1])]
            && DrawsEnd(g, words, p, after) == ClampedEnd(g, words, DrawsEnd(g, words, p, before), c.gaps[r - 1])
  {
    hide Drawn, DrawsEnd, ClampedAt, ClampedEnd;
    var before := [c.constraints[0]] + c.gaps[..r - 1];
    OneMoreDraw(g, words, p, before, c.gaps[r - 1]);
    assert before + [c.gaps[r - 1]] == [c.constraints[0]] + c.gaps[..r];
  }

  /** One attempt position by position. */
  method PositionAttempt(src: Source, m: Analysis, c: Config, target: PosReal, kappa: PosReal, ghost a: Attempts)
      returns (adjusted: seq<real>)
    requires a == Attempts(m, c, src.words, a.start, target, kappa) && !c.rankSpace
    modifies src
    ensures adjusted == VectorAt(a, old(src.pos))
    ensures src.pos == DrawsEnd(m.normal, src.words, old(src.pos), Spreads(c))
  {
    hide Lawful, Concentrated, Overround, Round1, LimitedOdds, ClampedAt, ClampedEnd, Drawn, DrawsEnd;
    ghost var p, g, words := src.pos, m.normal, src.words;
    var raw := new real[c.n](i => 0.0);
    NoDraws(g, words, p);
    for i := 0 to c.n
      invariant raw[..i] == Drawn(g, words, p, c.constraints[..i])
      invariant src.pos == DrawsEnd(g, words, p, c.constraints[..i])
    {
      OneMoreDraw(g, words, p, c.constraints[..i], c.constraints[i]);
      assert c.constraints[..i] + [c.constraints[i]] == c.constraints[..i + 1];
      raw[i] := Clamped(m.normal, src, c.constraints[i]);
      assert raw[..i + 1] == raw[..i] + [raw[i]];
    }
    assert c.constraints[..c.n] == c.constraints && raw[..c.n] == raw[..];
    ghost var was := raw[..];
    DrawnWithin(a, p);
    assert was == DrawnAt(a, p);
    ApplyShapeConcentration(m, raw, kappa);
    ConcentratedPositive(m, was, kappa);
    var shaped := raw[..];
    var overround := CalcOverround(shaped);
    adjusted := LimitAll(shaped, overround / target, c.constraints);
    assert adjusted == PositionVector(m, c, was, target, kappa);
  }

  /** What generateWinOddsRankSpace returns: the coupling of the first accepted attempt. */
  method GenerateWinOddsRankSpace(src: Source, m: Analysis, c: Config, finishOrder: seq<int>, target: PosReal,
                                  kappa: PosReal, maxAttempts: nat)
      returns (out: Option<seq<real>>)
    requires Fair(src.words) && c.rankSpace
    modifies src
    ensures var a := Attempts(m, c, src.words, old(src.pos), target, kappa);
            var k := FirstSuccess(a, 0, maxAttempts);
            if k < maxAttempts then
              && out == Some(Coupled(c.model, src.words, AttemptStart(a, k + 1), finishOrder,
                                     VectorAt(a, AttemptStart(a, k))))
              && src.pos == CoupledEnd(c.model, src.words, AttemptStart(a, k + 1), finishOrder, c.n)
            else out == None && src.pos == AttemptStart(a, maxAttempts)
  {
    hide Lawful, Coupled, CoupledEnd, Accepted, VectorAt, Fair, DrawsEnd;
    ghost var a := Attempts(m, c, src.words, src.pos, target, kappa);
    for attempt := 0 to maxAttempts
      invariant src.pos == AttemptStart(a, attempt)
      invariant FirstSuccess(a, attempt, maxAttempts) == FirstSuccess(a, 0, maxAttempts)
    {
      var adjusted := RankSpaceAttempt(src, m, c, target, kappa, a);
      if Accepted(adjusted, target, c.tolerance) {
        var odds := CoupleWinOdds(src, c.model, finishOrder, adjusted);
        return Some(odds);
      }
    }
    out := None;
  }

  // ---------- the fallback ----------

  lemma {:induction false} RoundedLowest()
    ensures Round1(2.5) == 2.5
  {
  }

  /** The weights drawn from position p of the word stream. */
  function FallbackWeights(words: nat -> Word, p: nat, n: nat): (r: seq<real>)
    ensures |r| == n && AllPositive(r)
  {
    seq(n, i requires 0 <= i < n => FractionAt(words, p + 2 * i) + 0.1)
  }

  /** The odds that pay a share of the total weight its part of the target. */
  function FairOdds(w: real, total: real, target: PosReal): real
    requires w > 0.0 && total > 0.0
  {
    SharePositive(w, total, target);
    1.0 / (w / total * target)
  }

  lemma {:induction false} FairOddsStep(w: real, total: real, target: PosReal, p: real)
    requires w > 0.0 && total > 0.0 && p == w / total * target
    ensures p > 0.0 && FairOdds(w, total, target) == 1.0 / p
  {
    SharePositive(w, total, target);
  }

  /** At least 2.5, else at most hard, to one decimal. */
  function Capped(o: real, hard: real): real {
    Round1(if o < 2.5 then 2.5 else if o > hard then hard else o)
  }

  function FallbackOdds(w: real, total: real, c: Config): real
    requires w > 0.0 && total > 0.0
  {
    Capped(FairOdds(w, total, c.target), c.limits.hard)
  }

  /** The fallback drawn from position p: each weight's odds. */
  function FallbackAt(words: nat -> Word, p: nat, c: Config): (odds: seq<real>)
    ensures |odds| == c.n
  {
    var ws := FallbackWeights(words, p, c.n);
    SumPositive(ws);
    seq(c.n, i requires 0 <= i < c.n => FallbackOdds(ws[i], Sum(ws), c))
  }

  method FallbackVector(src: Source, c: Config) returns (odds: seq<real>)
    modifies src
    ensures odds == FallbackAt(src.words, old(src.pos), c) && src.pos == old(src.pos) + 2 * c.n
  {
    hide Round1, FractionAt, FairOdds;
    ghost var ws := FallbackWeights(src.words, src.pos, c.n);
    SumPositive(ws);
    var weights: seq<real>, total := [], 0.0;
    for i := 0 to c.n
      invariant src.pos == old(src.pos) + 2 * i && weights == ws[..i] && total == Prefix(ws, i)
    {
      var x := CertifiedFloat(src);
      weights := weights + [x + 0.1];
      total := total + (x + 0.1);
    }
    odds := [];
    for i := 0 to c.n
      invariant src.pos == old(src.pos) + 2 * c.n
      invariant |odds| == i && forall j | 0 <= j < i :: odds[j] == FallbackOdds(ws[j], Sum(ws), c)
    {
      var p := weights[i] / total * c.target;
      FairOddsStep(weights[i], total, c.target, p);
      var o := 1.0 / p;
      if o < 2.5 {
        o := 2.5;
      } else if o > c.limits.hard {
        o := c.limits.hard;
      }
      odds := odds + [Round1(o)];
    }
  }

  /** Between 2.5 and the rounded maximum, whichever of the two is the lower. */
  lemma {:induction false} FallbackInRange(w: real, total: real, c: Config)
    requires w > 0.0 && total > 0.0
    ensures var hard := Round1(c.limits.hard);
            if hard < 2.5 then 0.0 < hard <= FallbackOdds(w, total, c) <= 2.5
            else 2.5 <= FallbackOdds(w, total, c) <= hard
  {
    hide Round1, FairOdds;
    var o := FairOdds(w, total, c.target);
    var v := if o < 2.5 then 2.5 else if o > c.limits.hard then c.limits.hard else o;
    RoundedLowest();
    if c.limits.hard >= 2.5 {
      RoundOrdered(2.5, v);
      RoundOrdered(v, c.limits.hard);
    } else {
      RoundOrdered(c.limits.hard, 2.5);
    }
  }

  /** The maximum is exceeded exactly when it is below 2.5 and the fair odds are too: the floor comes first. */
  lemma {:induction false} MaximumExceededExactlyWhen(w: real, total: real, c: Config)
    requires w > 0.0 && total > 0.0
    ensures FallbackOdds(w, total, c) > Round1(c.limits.hard) <==>
            Round1(c.limits.hard) < 2.5 && FairOdds(w, total, c.target) < 2.5
  {
    hide Round1, FairOdds;
    RoundedLowest();
    var o := FairOdds(w, total, c.target);
    if 2.5 <= o {
      var v := if o > c.limits.hard then c.limits.hard else o;
      RoundOrdered(v, c.limits.hard);
    }
  }

  /** One runner, a maximum of 2.0 and a fair book: whatever is drawn, the fallback is 2.5. */
  lemma {:induction false} LowMaximumExceeded(words: nat -> Word, p: nat, c: Config)
    requires c.n == 1 && c.target == 1.0 && c.limits.hard == 2.0
    ensures FallbackAt(words, p, c) == [2.5] && Round1(c.limits.hard) == 2.0
  {
    hide FractionAt, Sum;
    var ws := FallbackWeights(words, p, 1);
    SumPositive(ws);
    OnlyWeight(ws);
    FairOddsStep(ws[0], Sum(ws), 1.0, 1.0);
    RoundedLowest();
  }

  lemma {:induction false} OnlyWeight(ws: seq<real>)
    requires |ws| == 1 && ws[0] > 0.0
    ensures Sum(ws) == ws[0] && ws[0] / Sum(ws) * 1.0 == 1.0
  {
    assert Prefix(ws, 1) == Prefix(ws, 0) + ws[0];
  }

  // ---------- the whole draw ----------

  /** Whether the finish order lets the odds through unharmed. */
  ghost predicate Harmless(finishOrder: seq<int>, n: nat) {
    FinishPool.FinishOrder(finishOrder, n) || !Usable(finishOrder, n)
  }

  /** Assigning the odds to runners keeps positivity, the acceptance of the overround and the limits. */
  lemma {:induction false} CoupledKeeps(c: Config, words: nat -> Word, p: nat, finishOrder: seq<int>,
                                        v: seq<real>, target: real)
    requires Fair(words) && |v| == c.n && AllPositive(v) && Harmless(finishOrder, c.n)
    ensures var out := Coupled(c.model, words, p, finishOrder, v);
            && |out| == c.n && AllPositive(out)
            && (Accepted(v, target, c.tolerance) <==> Accepted(out, target, c.tolerance))
            && (forall lo, hi :: Bounded(v, lo, hi) ==> Bounded(out, lo, hi))
  {
    hide Coupled, Fair, Overround, Round1, Bounded, Usable;
    MarginKept(c.model, words, p, finishOrder, v);
    RearrangedExactlyWhenNoRunnerRepeats(c.model, words, p, finishOrder, v);
    HarmlessDistinct(finishOrder, c.n);
    var out := Coupled(c.model, words, p, finishOrder, v);
    forall lo, hi ensures Bounded(v, lo, hi) ==> Bounded(out, lo, hi) {
      BoundedRearranged(v, out, lo, hi);
    }
    assert |multiset(out)| == |out| && |multiset(v)| == |v|;
  }

  lemma {:induction false} HarmlessDistinct(finishOrder: seq<int>, n: nat)
    requires Harmless(finishOrder, n)
    ensures !Usable(finishOrder, n) || Distinct(finishOrder)
  {
  }

  lemma {:induction false} BoundedRearranged(v: seq<real>, out: seq<real>, lo: real, hi: real)
    requires multiset(out) == multiset(v)
    ensures Bounded(v, lo, hi) ==> Bounded(out, lo, hi)
  {
    forall i | 0 <= i < |out| && Bounded(v, lo, hi) ensures lo <= out[i] <= hi {
      assert out[i] in multiset(v);
    }
  }

  /** The attempts of the race whose draws begin at position p. */
  function AttemptsAt(m: Analysis, c: Config, words: nat -> Word, p: nat): (a: Attempts)
    ensures a.c == c && a.words == words
  {
    var q := TargetEnd(m, c, words, p);
    Attempts(m, c, words, ShapeEnd(m, c, words, q), TargetAt(m, c, words, p), ShapeAt(m, c, words, q))
  }

  /** The vector that becomes the race's odds: the first accepted attempt's, or the fallback's. */
  ghost function ChosenVector(a: Attempts): (v: seq<real>)
    ensures |v| == a.c.n
  {
    var k := FirstSuccess(a, 0, ATTEMPTS);
    if k < ATTEMPTS then VectorAt(a, AttemptStart(a, k)) else FallbackAt(a.words, AttemptStart(a, ATTEMPTS), a.c)
  }

  /** Where the word stream stands when that vector is drawn. */
  ghost function ChosenEnd(a: Attempts): nat {
    var k := FirstSuccess(a, 0, ATTEMPTS);
    if k < ATTEMPTS then AttemptStart(a, k + 1) else AttemptStart(a, ATTEMPTS) + 2 * a.c.n
  }

  /** The WIN odds of a race, from the word stream alone: the drawn target and shape, the first of at most
      100 attempts that is accepted, else the fallback, in either case assigned along the finish order. */
  method GenerateWinOdds(m: Analysis, src: Source, c: Config, finishOrder: seq<int>) returns (out: seq<real>)
    requires Fair(src.words)
    modifies src
    ensures var a := AttemptsAt(m, c, src.words, old(src.pos));
            && out == Coupled(c.model, src.words, ChosenEnd(a), finishOrder, ChosenVector(a))
            && src.pos == CoupledEnd(c.model, src.words, ChosenEnd(a), finishOrder, c.n)
  {
    hide Lawful, Coupled, CoupledEnd, Accepted, VectorAt, Fair, DrawsEnd, FallbackAt, TargetAt,
      TargetEnd, ShapeAt, ShapeEnd;
    ghost var a := AttemptsAt(m, c, src.words, src.pos);
    var target := DrawOverroundTarget(m, src, c);
    var kappa := DrawShapeConcentration(m, src, c);
    assert a == Attempts(m, c, src.words, src.pos, target, kappa);
    if c.rankSpace {
      var attempt := GenerateWinOddsRankSpace(src, m, c, finishOrder, target, kappa, ATTEMPTS);
      if attempt.Some? {
        return attempt.value;
      }
    } else {
      for attempt := 0 to ATTEMPTS
        invariant src.pos == AttemptStart(a, attempt)
        invariant FirstSuccess(a, attempt, ATTEMPTS) == FirstSuccess(a, 0, ATTEMPTS)
      {
        var adjusted := PositionAttempt(src, m, c, target, kappa, a);
        if Accepted(adjusted, target, c.tolerance) {
          out := CoupleWinOdds(src, c.model, finishOrder, adjusted);
          return;
        }
      }
    }
    var odds := FallbackVector(src, c);
    out := CoupleWinOdds(src, c.model, finishOrder, odds);
  }

  /** The WIN odds end to end. Unless the finish order repeats a runner, the odds are positive and their
      overround is within the tolerance of the drawn target, and in rank space they also lie within the
      limits; or all 100 attempts were rejected and they lie between 2.5 and the rounded maximum. */
  lemma {:induction false} WinOddsEndToEnd(a: Attempts, finishOrder: seq<int>)
    requires Fair(a.words) && Harmless(finishOrder, a.c.n)
    ensures var out := Coupled(a.c.model, a.words, ChosenEnd(a), finishOrder, ChosenVector(a));
            var hard := Round1(a.c.limits.hard);
            && |out| == a.c.n && AllPositive(out)
            && if exists k: nat :: Hits(a, k) then
                 && -a.c.tolerance <= Overround(out) - a.target <= a.c.tolerance
                 && (a.c.rankSpace ==> Bounded(out, Round1(a.c.limits.floor), hard))
               else if hard < 2.5 then Bounded(out, hard, 2.5) else Bounded(out, 2.5, hard)
  {
    hide Lawful, Coupled, Overround, Round1, Nondecreasing, Fair, VectorAt, AttemptStart, FallbackWeights, FallbackOdds,
      Harmless, Accepted, Hits;
    var v, k := ChosenVector(a), FirstSuccess(a, 0, ATTEMPTS);
    FirstSuccessIs(a, 0, ATTEMPTS);
    FirstSuccessHits(a);
    if k < ATTEMPTS {
      AttemptWithinLimits(a, AttemptStart(a, k));
      AcceptedExactlyOnTarget(v, a.target, a.c.tolerance);
    } else {
      var p := AttemptStart(a, ATTEMPTS);
      var ws := FallbackWeights(a.words, p, a.c.n);
      SumPositive(ws);
      var hard := Round1(a.c.limits.hard);
      forall i | 0 <= i < a.c.n
        ensures if hard < 2.5 then 0.0 < hard <= v[i] <= 2.5 else 2.5 <= v[i] <= hard
      {
        FallbackInRange(ws[i], Sum(ws), a.c);
      }
    }
    CoupledKeeps(a.c, a.words, ChosenEnd(a), finishOrder, v, a.target);
    AcceptedExactlyOnTarget(Coupled(a.c.model, a.words, ChosenEnd(a), finishOrder, v), a.target, a.c.tolerance);
  }

  // ---------- each value's exact place ----------

  /** Positive odds whose overround is within the tolerance of the target, on either side. */
  ghost predicate OnTarget(v: seq<real>, target: real, tolerance: real) {
    AllPositive(v) && -tolerance <= Overround(v) - target <= tolerance
  }

  lemma {:induction false} AcceptedExactlyOnTarget(v: seq<real>, target: real, tolerance: real)
    ensures Accepted(v, target, tolerance) <==> OnTarget(v, target, tolerance)
  {
    hide Overround;
  }

  /** Of a hundred attempts the first on target is taken, and the fallback is used exactly when there is none. */
  lemma {:induction false} FirstOnTargetChosen(a: Attempts)
    ensures (exists k: nat :: FirstHit(a, k)) <==> exists k: nat :: Hits(a, k)
    ensures forall k: nat :: FirstHit(a, k) ==>
              ChosenVector(a) == VectorAt(a, AttemptStart(a, k)) && ChosenEnd(a) == AttemptStart(a, k + 1)
    ensures (forall k: nat :: !Hits(a, k)) ==>
              && ChosenVector(a) == FallbackAt(a.words, AttemptStart(a, 100), a.c)
              && ChosenEnd(a) == AttemptStart(a, 100) + 2 * a.c.n
  {
    hide VectorAt, AttemptStart, FallbackAt, Hits;
    FirstSuccessHits(a);
  }

  lemma {:induction false} FirstSuccessHits(a: Attempts)
    ensures var r := FirstSuccess(a, 0, ATTEMPTS);
            && (r < 100 <==> exists k: nat :: Hits(a, k)) && (r < 100 ==> FirstHit(a, r))
            && forall k: nat :: FirstHit(a, k) ==> k == r
  {
    hide Hits, Succeeds;
    FirstSuccessIs(a, 0, ATTEMPTS);
    var r := FirstSuccess(a, 0, ATTEMPTS);
    forall k: nat ensures Hits(a, k) <==> k < 100 && Succeeds(a, k) {
      HitSucceeds(a, k);
    }
    forall k: nat | FirstHit(a, k) ensures k == r {
      assert k >= r;
    }
  }

  lemma {:induction false} HitSucceeds(a: Attempts, k: nat)
    ensures Hits(a, k) <==> k < 100 && Succeeds(a, k)
  {
    hide VectorAt, AttemptStart, Accepted, OnTarget;
    AcceptedExactlyOnTarget(VectorAt(a, AttemptStart(a, k)), a.target, a.c.tolerance);
  }

  /** Attempt k is among the hundred and on target. */
  ghost predicate Hits(a: Attempts, k: nat) {
    k < 100 && OnTarget(VectorAt(a, AttemptStart(a, k)), a.target, a.c.tolerance)
  }

  ghost predicate FirstHit(a: Attempts, k: nat) {
    Hits(a, k) && forall i: nat | i < k :: !Hits(a, i)
  }

  /** Both vectors are made from a book that meets the target exactly: the concentrated odds, all multiplied by one
      factor so that their overround is the target. */
  ghost predicate ExactBook(s: seq<real>, x: seq<real>, target: real) {
    AllPositive(x) && Overround(x) == target && exists f: real :: f > 0.0 && x == Scaled(f, s)
  }

  lemma {:induction false} BookRescaled(s: seq<real>, target: PosReal) returns (x: seq<real>)
    requires |s| > 0 && AllPositive(s)
    ensures x == Scaled(Overround(s) / target, s) && ExactBook(s, x, target)
  {
    hide Overround;
    RescalingMeetsTarget(s, target);
    x := Scaled(Overround(s) / target, s);
  }

  /** In rank space: the favourite's odds, each runner's a gap above the one before, concentrated, brought to the
      target, and then value by value floored, capped and rounded. */
  lemma {:induction false} RankSpaceFromExactBook(m: Analysis, c: Config, favourite: PosReal, gaps: seq<real>,
                                                  target: PosReal, kappa: PosReal)
    requires |gaps| == c.n - 1
    ensures var r := RankVector(favourite, gaps);
            && r[0] == favourite && (forall i | 0 <= i < |gaps| && gaps[i] >= 0.0 :: r[i + 1] - r[i] == gaps[i])
            && (forall i | 0 <= i < |gaps| && gaps[i] < 0.0 :: r[i + 1] == r[i])
            && AllPositive(r)
            && exists x: seq<real> ::
                 && ExactBook(Concentrated(m, r, kappa), x, target)
                 && RankSpaceVector(m, c, favourite, gaps, target, kappa) ==
                      Adjusted(x, 1.0, c.limits)
  {
    hide Lawful, Concentrated, Adjusted, Overround, RankVector, Nondecreasing;
    RankVectorOrdered(favourite, gaps);
    GapByGap(favourite, gaps);
    var r := RankVector(favourite, gaps);
    ConcentratedOrdered(m, r, kappa);
    var s := Concentrated(m, r, kappa);
    var x := BookRescaled(s, target);
    RescaledFirst(s, x, Overround(s) / target, c.limits);
  }

  /** Rescaling within the adjustment, or before it. */
  lemma {:induction false} RescaledFirst(s: seq<real>, x: seq<real>, factor: real, l: Limits)
    requires x == Scaled(factor, s)
    ensures Adjusted(s, factor, l) == Adjusted(x, 1.0, l)
  {
    hide AdjustedOdds;
    forall i | 0 <= i < |s| ensures Adjusted(s, factor, l)[i] == Adjusted(x, 1.0, l)[i] {
      AdjustedStep(s[i], factor, l, factor * s[i]);
      AdjustedStep(x[i], 1.0, l, factor * s[i]);
    }
  }

  lemma {:induction false} GapByGap(favourite: real, gaps: seq<real>)
    ensures var r := RankVector(favourite, gaps);
            && |r| == |gaps| + 1 && r[0] == favourite
            && (forall i | 0 <= i < |gaps| && gaps[i] >= 0.0 :: r[i + 1] - r[i] == gaps[i])
            && (forall i | 0 <= i < |gaps| && gaps[i] < 0.0 :: r[i + 1] == r[i])
  {
    if |gaps| > 0 {
      var m := |gaps| - 1;
      GapByGap(favourite, gaps[..m]);
      var before, r := RankVector(favourite, gaps[..m]), RankVector(favourite, gaps);
      assert r[..m + 1] == before;
    }
  }

  /** Position by position: the drawn odds, concentrated, brought to the target, and then each within its position's
      range left alone, else moved to the nearer bound, and rounded. */
  lemma {:induction false} PositionFromExactBook(m: Analysis, c: Config, raw: seq<real>, target: PosReal,
                                                 kappa: PosReal)
    requires |raw| == c.n && AllPositive(raw)
    ensures exists x: seq<real> ::
              && ExactBook(Concentrated(m, raw, kappa), x, target) && |x| == c.n
              && forall i | 0 <= i < c.n ::
                   var d := c.constraints[i];
                   PositionVector(m, c, raw, target, kappa)[i] ==
                     Round1(if x[i] < d.min then d.min else if x[i] > d.max then d.max else x[i])
  {
    hide Lawful, Concentrated, Overround, Round1, LimitedOdds;
    ConcentratedPositive(m, raw, kappa);
    var s := Concentrated(m, raw, kappa);
    var x := BookRescaled(s, target);
    forall i | 0 <= i < c.n
      ensures PositionVector(m, c, raw, target, kappa)[i] == Limited(x[i], c.constraints[i])
    {
      var y := s[i] * (Overround(s) / target);
      LimitedStep(s[i], Overround(s) / target, c.constraints[i], y);
      assert x[i] == y;
    }
  }

  /** The fallback: each runner's fair odds pay its drawn weight's share of the target, so that the fair book has
      exactly the configured overround; below 2.5 they become 2.5, above the maximum the maximum, and are rounded. */
  lemma {:induction false} FallbackFromFairBook(words: nat -> Word, p: nat, c: Config)
    ensures exists x: seq<real> ::
              && |x| == c.n && AllPositive(x) && Overround(x) == c.target
              && (forall i, j | 0 <= i < c.n && 0 <= j < c.n ::
                    x[i] * (FractionAt(words, p + 2 * i) + 0.1) == x[j] * (FractionAt(words, p + 2 * j) + 0.1))
              && forall i | 0 <= i < c.n ::
                   FallbackAt(words, p, c)[i] ==
                     Round1(if x[i] < 2.5 then 2.5 else if x[i] > c.limits.hard then c.limits.hard else x[i])
  {
    hide FractionAt, Sum, Overround, Round1, FairOdds;
    var ws := FallbackWeights(words, p, c.n);
    SumPositive(ws);
    var x := seq(c.n, i requires 0 <= i < c.n => FairOdds(ws[i], Sum(ws), c.target));
    FairBook(ws, c.target, x);
  }

  lemma {:induction false} FairBook(ws: seq<real>, target: PosReal, x: seq<real>)
    requires |ws| == |x| > 0 && AllPositive(ws) && Sum(ws) > 0.0
    requires forall i | 0 <= i < |ws| :: x[i] == FairOdds(ws[i], Sum(ws), target)
    ensures AllPositive(x) && Overround(x) == target
    ensures forall i, j | 0 <= i < |x| && 0 <= j < |x| :: x[i] * ws[i] == x[j] * ws[j]
  {
    hide Sum, FairOdds;
    var total := Sum(ws);
    var f := target / total;
    forall i | 0 <= i < |x| ensures x[i] > 0.0 && 1.0 / x[i] == f * ws[i] && x[i] * ws[i] == total / target {
      FairOddsIs(ws[i], total, target, x[i], f);
    }
    forall i | 0 <= i < |x| ensures Inverses(x)[i] == Scaled(f, ws)[i] {
      assert 1.0 / x[i] == f * ws[i];
    }
    assert Inverses(x) == Scaled(f, ws);
    ScaledTotal(f, ws);
    OverroundIs(x);
    assert f * total == target;
  }

  lemma {:induction false} FairOddsIs(w: real, total: real, target: PosReal, x: real, f: real)
    requires w > 0.0 && total > 0.0 && x == FairOdds(w, total, target) && f == target / total
    ensures x > 0.0 && 1.0 / x == f * w && x * w == total / target
  {
    var p := w / total * target;
    FairOddsStep(w, total, target, p);
    assert x * p == 1.0;
    assert f * total == target;
    var s := w / total;
    assert s * total == w;
    assert f * w == p;
    var q := total / target;
    assert q * target == total;
    assert q * p == w;
    assert (x * w - q) == 0.0 by {
      assert x * w == x * (q * p) == q * (x * p);
    }
    assert 1.0 / x == p by {
      var y := 1.0 / x;
      assert y * x == 1.0;
      assert (y - p) * x == 0.0;
    }
  }

  /** The shifted log-normal target: within its band, what lies above the shift is the median's part of it times the
      exponential of the deviation times the normal; beyond the band, the nearer end. */
  lemma {:induction false} TargetCases(m: Analysis, c: Config, z: real, x: real, ov: real)
    requires x == c.sigma * z && ov - c.shift == (c.target - c.shift) * m.exp(x)
    ensures c.sigma <= 0.0 || c.shift <= 0.0 || c.shift >= c.target ==> TargetFor(m, c, z) == c.target
    ensures c.sigma > 0.0 && 0.0 < c.shift < c.target ==>
              TargetFor(m, c, z) ==
                if ov > c.target + 0.08 then c.target + 0.08 else if ov < c.shift then c.shift else ov
  {
    hide Lawful, ValidConfig;
    LogNormalIs(m, c.sigma, z, x);
    MarginIs(m, c, z, m.exp(x), ov - c.shift);
  }

  /** The shape: no concentration without a deviation; else the exponential of the normal times its deviation, which for
      a negative normal is the flattening one, if there is one. */
  lemma {:induction false} ShapeCases(m: Analysis, c: Config, z: real, x: real, y: real)
    requires x == c.shapeSigma * z && y == c.flattenSigma * z
    ensures c.shapeSigma <= 0.0 ==> ShapeFor(m, c, z) == 1.0
    ensures c.shapeSigma > 0.0 && (z >= 0.0 || c.flattenSigma <= 0.0) ==> ShapeFor(m, c, z) == m.exp(x)
    ensures c.shapeSigma > 0.0 && z < 0.0 && c.flattenSigma > 0.0 ==> ShapeFor(m, c, z) == m.exp(y)
  {
    hide Lawful, ValidConfig;
    LogNormalIs(m, c.shapeSigma, z, x);
    LogNormalIs(m, c.flattenSigma, z, y);
  }

  /** Target and shape come from standard normals within four deviations, one after the other, each drawn only if it
      is not fixed. */
  lemma {:induction false} TargetThenShape(m: Analysis, c: Config, words: nat -> Word, p: nat)
    ensures var (a, unit) := (AttemptsAt(m, c, words, p), Spread(0.0, 1.0, -4.0, 4.0));
            var q := if FixedTarget(c) then p else ClampedEnd(m.normal, words, p, unit);
            && a.target == TargetFor(m, c, ClampedAt(m.normal, words, p, unit))
            && a.kappa == ShapeFor(m, c, ClampedAt(m.normal, words, q, unit))
            && a.start == if c.shapeSigma <= 0.0 then q else ClampedEnd(m.normal, words, q, unit)
  {
    hide Lawful, ValidConfig, ClampedAt, ClampedEnd;
  }

  /** What an attempt makes of its draws: in rank space the first is the favourite's odds and the others are gaps,
      otherwise each is a position's odds. */
  lemma {:induction false} AttemptFromDraws(a: Attempts, p: nat)
    ensures var ds := if a.c.rankSpace then [a.c.constraints[0]] + a.c.gaps else a.c.constraints;
            var raw := Drawn(a.m.normal, a.words, p, ds);
            && |raw| == a.c.n && raw[0] > 0.0 && (!a.c.rankSpace ==> AllPositive(raw))
            && VectorAt(a, p) == if a.c.rankSpace then RankSpaceVector(a.m, a.c, raw[0], raw[1..], a.target, a.kappa)
                                 else PositionVector(a.m, a.c, raw, a.target, a.kappa)
  {
    hide Drawn, RankSpaceVector, PositionVector;
    DrawnWithin(a, p);
  }
}
