/** Iterative proportional fitting as internal/racegen/videoselector/selector.go:146-210 does it,
    in exact arithmetic: entries carry a key, and a step rescales all entries of a key together. */
module IpfFit {
  import opened Arithmetic
  import opened Basics

  // ---------- masses of keys ----------

  /** The weight of the first n entries whose key is k. */
  function Mass<K(==)>(w: seq<real>, keys: seq<K>, k: K, n: nat): real
    requires n <= |w| && n <= |keys|
  {
    if n == 0 then 0.0 else Mass(w, keys, k, n - 1) + if keys[n - 1] == k then w[n - 1] else 0.0
  }

  function KeyMass<K(==)>(w: seq<real>, keys: seq<K>, k: K): real
    requires |w| == |keys|
  {
    Mass(w, keys, k, |w|)
  }

  lemma {:induction false} MassSkip<K>(w: seq<real>, keys: seq<K>, k: K, a: nat, b: nat)
    requires a <= b <= |w| == |keys|
    requires forall i | a <= i < b :: keys[i] != k
    ensures Mass(w, keys, k, a) == Mass(w, keys, k, b)
    decreases b
  {
    if a < b {
      MassSkip(w, keys, k, a, b - 1);
    }
  }

  lemma {:induction false} MassNonnegative<K>(w: seq<real>, keys: seq<K>, k: K, n: nat)
    requires n <= |w| == |keys| && AllNonnegative(w)
    ensures 0.0 <= Mass(w, keys, k, n) <= Prefix(w, n)
    ensures forall i | 0 <= i < n && keys[i] == k :: w[i] <= Mass(w, keys, k, n)
  {
    if n > 0 {
      MassNonnegative(w, keys, k, n - 1);
    }
  }

  /** Scaling every entry of key k by g scales the mass of k by g. */
  lemma {:induction false} MassScaled<K>(w: seq<real>, v: seq<real>, keys: seq<K>, k: K, g: real, n: nat)
    requires n <= |w| == |v| == |keys|
    requires forall i | 0 <= i < n && keys[i] == k :: v[i] == w[i] * g
    ensures Mass(v, keys, k, n) == Mass(w, keys, k, n) * g
  {
    if n > 0 {
      MassScaled(w, v, keys, k, g, n - 1);
    }
  }

  // ---------- the two steps ----------

  function Share(mass: real, total: real): real
    requires total != 0.0
  {
    mass / total * 100.0
  }

  /** What ipfStep multiplies the entries of key k by. */
  function FitGain<K(==)>(w: seq<real>, keys: seq<K>, target: map<K, real>, k: K): real
    requires |w| == |keys| && Sum(w) != 0.0
  {
    var s := Share(KeyMass(w, keys, k), Sum(w));
    if k !in target || s <= 0.0 then 1.0 else target[k] / s
  }

  function Fitted<K(==)>(w: seq<real>, keys: seq<K>, target: map<K, real>): (r: seq<real>)
    requires |w| == |keys|
    ensures |r| == |w|
  {
    if Sum(w) == 0.0 then w
    else seq(|w|, i requires 0 <= i < |w| => w[i] * FitGain(w, keys, target, keys[i]))
  }

  /** What ipfExactaStep multiplies the entries of key k by. */
  function NudgeGain<K(==)>(w: seq<real>, keys: seq<K>, share: real, factor: real, k: K): real
    requires |w| == |keys| && Sum(w) != 0.0
  {
    var s := Share(KeyMass(w, keys, k), Sum(w));
    if s <= 0.0 then 1.0 else 1.0 + factor * (share / s - 1.0)
  }

  function Nudged<K(==)>(w: seq<real>, keys: seq<K>, share: real, factor: real): (r: seq<real>)
    requires |w| == |keys|
    ensures |r| == |w|
  {
    if Sum(w) == 0.0 then w
    else seq(|w|, i requires 0 <= i < |w| => w[i] * NudgeGain(w, keys, share, factor, keys[i]))
  }

  // ---------- positivity ----------

  ghost predicate PositiveTargets<K(!new)>(target: map<K, real>) {
    forall k | k in target :: target[k] > 0.0
  }

  ghost predicate NonnegativeTargets<K(!new)>(target: map<K, real>) {
    forall k | k in target :: target[k] >= 0.0
  }

  /** What a cell that holds all the weight keeps of it in the exacta step, in percent. */
  function Remainder(share: real, factor: real): real {
    100.0 - factor * (100.0 - share)
  }

  lemma {:induction false} ShareRange<K>(w: seq<real>, keys: seq<K>, k: K)
    requires AllNonnegative(w) && |w| == |keys| && Sum(w) > 0.0
    ensures 0.0 <= Share(KeyMass(w, keys, k), Sum(w)) <= 100.0
    ensures KeyMass(w, keys, k) > 0.0 <==> Share(KeyMass(w, keys, k), Sum(w)) > 0.0
    ensures forall i | 0 <= i < |w| && keys[i] == k :: w[i] <= KeyMass(w, keys, k)
  {
    MassNonnegative(w, keys, k, |w|);
    ShareBounds(KeyMass(w, keys, k), Sum(w));
  }

  lemma {:induction false} ShareBounds(m: real, total: real)
    requires 0.0 <= m <= total && total > 0.0
    ensures 0.0 <= Share(m, total) <= 100.0
    ensures m > 0.0 <==> Share(m, total) > 0.0
  {
    var x := m / total;
    assert x * total == m;
    SignOfFactor(x, total);
    SignOfFactor(1.0 - x, total);
    if m > 0.0 {
      RatioPositive(m, total);
    }
  }

  lemma {:induction false} ShareOfPresent<K>(w: seq<real>, keys: seq<K>, i: nat)
    requires AllPositive(w) && i < |w| == |keys|
    ensures Sum(w) > 0.0 && KeyMass(w, keys, keys[i]) > 0.0
    ensures Share(KeyMass(w, keys, keys[i]), Sum(w)) > 0.0
  {
    SumPositive(w);
    ShareRange(w, keys, keys[i]);
  }

  lemma {:induction false} FitGainPositive<K(!new)>(w: seq<real>, keys: seq<K>, target: map<K, real>, k: K)
    requires |w| == |keys| && Sum(w) != 0.0
    requires NonnegativeTargets(target)
    ensures FitGain(w, keys, target, k) >= 0.0
    ensures PositiveTargets(target) ==> FitGain(w, keys, target, k) > 0.0
  {
    hide Sum, KeyMass, Share;
    var s := Share(KeyMass(w, keys, k), Sum(w));
    if k in target && s > 0.0 {
      QuotientSign(target[k], s);
    }
  }

  lemma {:induction false} QuotientSign(t: real, s: real)
    requires t >= 0.0 && s > 0.0
    ensures t / s >= 0.0 && (t > 0.0 ==> t / s > 0.0)
  {
    var x := t / s;
    assert x * s == t;
    SignOfFactor(x, s);
  }

  lemma {:induction false} FittedPositive<K(!new)>(w: seq<real>, keys: seq<K>, target: map<K, real>)
    requires AllPositive(w) && |w| == |keys| && PositiveTargets(target)
    ensures AllPositive(Fitted(w, keys, target))
  {
    hide Sum, FitGain;
    if Sum(w) != 0.0 {
      forall i | 0 <= i < |w| ensures Fitted(w, keys, target)[i] > 0.0 {
        FitGainPositive(w, keys, target, keys[i]);
        ProductPositive(w[i], FitGain(w, keys, target, keys[i]));
      }
    }
  }

  lemma {:induction false} FittedNonnegative<K(!new)>(w: seq<real>, keys: seq<K>, target: map<K, real>)
    requires AllNonnegative(w) && |w| == |keys| && NonnegativeTargets(target)
    ensures AllNonnegative(Fitted(w, keys, target))
  {
    hide Sum, FitGain;
    if Sum(w) != 0.0 {
      forall i | 0 <= i < |w| ensures Fitted(w, keys, target)[i] >= 0.0 {
        FitGainPositive(w, keys, target, keys[i]);
        Nonnegative(w[i], FitGain(w, keys, target, keys[i]));
      }
    }
  }

  lemma {:induction false} NudgeGainAtLeast<K>(w: seq<real>, keys: seq<K>, share: real, factor: real, k: K)
    requires AllNonnegative(w) && |w| == |keys| && Sum(w) > 0.0 && share > 0.0 && factor > 0.0
    ensures var gain := NudgeGain(w, keys, share, factor, k);
            gain >= 1.0 || gain >= Remainder(share, factor) / 100.0
  {
    hide Sum, KeyMass, Share;
    ShareRange(w, keys, k);
    var s := Share(KeyMass(w, keys, k), Sum(w));
    if s > 0.0 {
      MixAtLeast(share, s, factor);
    }
  }

  lemma {:induction false} NudgedPositive<K>(w: seq<real>, keys: seq<K>, share: real, factor: real)
    requires AllPositive(w) && |w| == |keys| && share > 0.0 && factor > 0.0 && Remainder(share, factor) > 0.0
    ensures AllPositive(Nudged(w, keys, share, factor))
  {
    hide Sum, NudgeGain, Remainder;
    forall i | 0 <= i < |w| ensures Nudged(w, keys, share, factor)[i] > 0.0 {
      SumPositive(w);
      NudgeGainAtLeast(w, keys, share, factor, keys[i]);
      ProductPositive(w[i], NudgeGain(w, keys, share, factor, keys[i]));
    }
  }

  lemma {:induction false} NudgedNonnegative<K>(w: seq<real>, keys: seq<K>, share: real, factor: real)
    requires AllNonnegative(w) && |w| == |keys| && share > 0.0 && factor > 0.0 && Remainder(share, factor) >= 0.0
    ensures AllNonnegative(Nudged(w, keys, share, factor))
  {
    hide Sum, NudgeGain, Remainder;
    SumNonnegative(w);
    if Sum(w) != 0.0 {
      forall i | 0 <= i < |w| ensures Nudged(w, keys, share, factor)[i] >= 0.0 {
        NudgeGainAtLeast(w, keys, share, factor, keys[i]);
        Nonnegative(w[i], NudgeGain(w, keys, share, factor, keys[i]));
      }
    }
  }

  // ---------- what one step achieves ----------

  /** A list of the distinct keys of the entries. */
  ghost predicate Lists<K(!new)>(ks: seq<K>, keys: seq<K>) {
    Distinct(ks) && forall i | 0 <= i < |keys| :: keys[i] in ks
  }

  function MassTotal<K(==)>(w: seq<real>, keys: seq<K>, ks: seq<K>, n: nat): real
    requires n <= |w| && n <= |keys|
  {
    if |ks| == 0 then 0.0 else MassTotal(w, keys, ks[..|ks| - 1], n) + Mass(w, keys, ks[|ks| - 1], n)
  }

  lemma {:induction false} MassTotalEmpty<K>(w: seq<real>, keys: seq<K>, ks: seq<K>)
    ensures MassTotal(w, keys, ks, 0) == 0.0
    decreases |ks|
  {
    if |ks| > 0 {
      MassTotalEmpty(w, keys, ks[..|ks| - 1]);
    }
  }

  /** One more entry adds its weight exactly once to the masses of distinct keys. */
  lemma {:induction false} MassTotalStep<K>(w: seq<real>, keys: seq<K>, ks: seq<K>, n: nat)
    requires 0 < n <= |w| && n <= |keys| && Distinct(ks)
    ensures MassTotal(w, keys, ks, n) ==
              MassTotal(w, keys, ks, n - 1) + if keys[n - 1] in ks then w[n - 1] else 0.0
    decreases |ks|
  {
    if |ks| > 0 {
      var m := |ks| - 1;
      MassTotalStep(w, keys, ks[..m], n);
      assert ks == ks[..m] + [ks[m]];
    }
  }

  /** The masses of the keys add up to the total weight. */
  lemma {:induction false} MassesPartition<K(!new)>(w: seq<real>, keys: seq<K>, ks: seq<K>, n: nat)
    requires n <= |w| == |keys| && Lists(ks, keys)
    ensures MassTotal(w, keys, ks, n) == Prefix(w, n)
  {
    if n == 0 {
      MassTotalEmpty(w, keys, ks);
    } else {
      MassesPartition(w, keys, ks, n - 1);
      MassTotalStep(w, keys, ks, n);
    }
  }

  /** After fitting, a present key with a target has mass target * total / 100. */
  lemma {:induction false} FittedMass<K(!new)>(w: seq<real>, keys: seq<K>, target: map<K, real>, i: nat)
    requires AllPositive(w) && i < |w| == |keys| && keys[i] in target
    ensures KeyMass(Fitted(w, keys, target), keys, keys[i]) == target[keys[i]] * Sum(w) / 100.0
  {
    hide Sum, Mass;
    var k := keys[i];
    ShareOfPresent(w, keys, i);
    FittedKeyMass(w, keys, target, k);
    GainTimesMass(target[k], KeyMass(w, keys, k), Sum(w));
  }

  lemma {:induction false} FittedKeyMass<K>(w: seq<real>, keys: seq<K>, target: map<K, real>, k: K)
    requires |w| == |keys| && Sum(w) != 0.0
    ensures KeyMass(Fitted(w, keys, target), keys, k) == KeyMass(w, keys, k) * FitGain(w, keys, target, k)
  {
    hide Sum, FitGain;
    MassScaled(w, Fitted(w, keys, target), keys, k, FitGain(w, keys, target, k), |w|);
  }

  lemma {:induction false} GainTimesMass(t: real, m: real, total: real)
    requires m > 0.0 && total > 0.0
    ensures Share(m, total) > 0.0 && m * (t / Share(m, total)) == t * total / 100.0
  {
    var s := m / total * 100.0;
    assert s * total == m * 100.0;
    RatioPositive(m, total);
    var g := t / s;
    assert g * s == t;
    assert m * g * 100.0 == g * s * total;
  }

  function TargetTotal<K(==)>(target: map<K, real>, ks: seq<K>): real
    requires forall j | 0 <= j < |ks| :: ks[j] in target
  {
    if |ks| == 0 then 0.0 else TargetTotal(target, ks[..|ks| - 1]) + target[ks[|ks| - 1]]
  }

  /** Every listed key is the key of some entry. */
  ghost predicate Occur<K(!new)>(ks: seq<K>, keys: seq<K>) {
    forall j | 0 <= j < |ks| :: ks[j] in keys
  }

  lemma {:induction false} FittedMassTotal<K(!new)>(w: seq<real>, keys: seq<K>, target: map<K, real>, ks: seq<K>)
    requires AllPositive(w) && 0 < |w| == |keys| && Occur(ks, keys)
    requires forall j | 0 <= j < |ks| :: ks[j] in target
    ensures MassTotal(Fitted(w, keys, target), keys, ks, |w|) == TargetTotal(target, ks) * Sum(w) / 100.0
    decreases |ks|
  {
    hide Sum, Mass, Fitted;
    if |ks| > 0 {
      var m := |ks| - 1;
      FittedMassTotal(w, keys, target, ks[..m]);
      assert ks[m] in keys;
      var i :| 0 <= i < |keys| && keys[i] == ks[m];
      FittedMass(w, keys, target, i);
      AddShares(TargetTotal(target, ks[..m]), target[ks[m]], Sum(w));
    }
  }

  /** One ipfStep makes each runner's share of the weight its target over the targets of the
      runners present, whatever the scale of the targets. */
  lemma {:induction false} FittedShares<K(!new)>(w: seq<real>, keys: seq<K>, target: map<K, real>, ks: seq<K>, i: nat)
    requires AllPositive(w) && i < |w| == |keys| && PositiveTargets(target)
    requires Lists(ks, keys) && Occur(ks, keys) && forall j | 0 <= j < |ks| :: ks[j] in target
    ensures keys[i] in target
    ensures var v := Fitted(w, keys, target);
            && Sum(v) > 0.0 && TargetTotal(target, ks) > 0.0
            && KeyMass(v, keys, keys[i]) / Sum(v) == target[keys[i]] / TargetTotal(target, ks)
  {
    hide Sum, Fitted, KeyMass, MassTotal;
    var v := Fitted(w, keys, target);
    assert keys[i] in ks;
    SumPositive(w);
    FittedPositive(w, keys, target);
    SumPositive(v);
    FittedMass(w, keys, target, i);
    FittedTotal(w, keys, target, ks);
    EqualRatios(target[keys[i]], TargetTotal(target, ks), Sum(w), KeyMass(v, keys, keys[i]), Sum(v));
  }

  lemma {:induction false} FittedTotal<K(!new)>(w: seq<real>, keys: seq<K>, target: map<K, real>, ks: seq<K>)
    requires AllPositive(w) && 0 < |w| == |keys|
    requires Lists(ks, keys) && Occur(ks, keys) && forall j | 0 <= j < |ks| :: ks[j] in target
    ensures Sum(Fitted(w, keys, target)) == TargetTotal(target, ks) * Sum(w) / 100.0
  {
    hide Fitted, MassTotal, TargetTotal;
    FittedMassTotal(w, keys, target, ks);
    MassesPartition(Fitted(w, keys, target), keys, ks, |w|);
  }

  // ---------- the exacta step ----------

  lemma {:induction false} NudgedKeyMass<K>(w: seq<real>, keys: seq<K>, share: real, factor: real, k: K)
    requires |w| == |keys| && Sum(w) != 0.0
    ensures KeyMass(Nudged(w, keys, share, factor), keys, k) ==
              KeyMass(w, keys, k) * NudgeGain(w, keys, share, factor, k)
  {
    hide Sum, NudgeGain;
    MassScaled(w, Nudged(w, keys, share, factor), keys, k, NudgeGain(w, keys, share, factor, k), |w|);
  }

  lemma {:induction false} NudgeTimesMass(share: real, factor: real, m: real, total: real)
    requires m > 0.0 && total > 0.0
    ensures Share(m, total) > 0.0
    ensures m * (1.0 + factor * (share / Share(m, total) - 1.0)) == m + factor * (share * total / 100.0 - m)
  {
    GainTimesMass(share, m, total);
    var c := share / Share(m, total);
    assert m * (1.0 + factor * (c - 1.0)) == m + factor * (m * c - m);
  }

  /** The exacta step moves the mass of each present cell exactly `factor` of the way towards the
      uniform share of the total. */
  lemma {:induction false} NudgedMass<K>(w: seq<real>, keys: seq<K>, share: real, factor: real, i: nat)
    requires AllPositive(w) && i < |w| == |keys|
    ensures var m := KeyMass(w, keys, keys[i]);
            KeyMass(Nudged(w, keys, share, factor), keys, keys[i]) == m + factor * (share * Sum(w) / 100.0 - m)
  {
    hide Sum, Mass, Share;
    ShareOfPresent(w, keys, i);
    NudgedKeyMass(w, keys, share, factor, keys[i]);
    NudgeTimesMass(share, factor, KeyMass(w, keys, keys[i]), Sum(w));
  }

  lemma {:induction false} NudgedMassTotal<K(!new)>(w: seq<real>, keys: seq<K>, share: real, factor: real, ks: seq<K>)
    requires AllPositive(w) && |w| == |keys| && Occur(ks, keys)
    ensures var m := MassTotal(w, keys, ks, |w|);
            MassTotal(Nudged(w, keys, share, factor), keys, ks, |w|) ==
              m + factor * (|ks| as real * share * Sum(w) / 100.0 - m)
    decreases |ks|
  {
    hide Sum, Mass, Nudged;
    if |ks| > 0 {
      var n := |ks| - 1;
      NudgedMassTotal(w, keys, share, factor, ks[..n]);
      assert ks[n] in keys;
      var i :| 0 <= i < |keys| && keys[i] == ks[n];
      NudgedMass(w, keys, share, factor, i);
      AddNudges(n as real, share, Sum(w), factor, MassTotal(w, keys, ks[..n], |w|), KeyMass(w, keys, ks[n]));
    }
  }

  /** When all the cells occur, the uniform share being 100 over their number, the exacta step
      leaves the total weight unchanged. */
  lemma {:induction false} NudgedTotalUnchanged<K(!new)>(w: seq<real>, keys: seq<K>, factor: real, ks: seq<K>)
    requires AllPositive(w) && 0 < |w| == |keys| && Lists(ks, keys) && Occur(ks, keys)
    ensures |ks| > 0 && Sum(Nudged(w, keys, 100.0 / |ks| as real, factor)) == Sum(w)
  {
    hide Nudged, MassTotal;
    assert keys[0] in ks;
    var share := 100.0 / |ks| as real;
    NudgedMassTotal(w, keys, share, factor, ks);
    MassesPartition(w, keys, ks, |w|);
    MassesPartition(Nudged(w, keys, share, factor), keys, ks, |w|);
    FullShare(|ks| as real, share, Sum(w));
  }

  // ---------- scale freedom ----------

  lemma {:induction false} MassOfScaled<K>(c: real, w: seq<real>, keys: seq<K>, k: K, n: nat)
    requires n <= |w| == |keys|
    ensures Mass(Scaled(c, w), keys, k, n) == c * Mass(w, keys, k, n)
  {
    if n > 0 {
      MassOfScaled(c, w, keys, k, n - 1);
    }
  }

  lemma {:induction false} ShareOfScaled(c: real, m: real, total: real, m2: real, total2: real)
    requires c > 0.0 && total > 0.0 && m2 == c * m && total2 == c * total
    ensures total2 > 0.0 && Share(m2, total2) == Share(m, total)
  {
    var x, y := m / total, m2 / total2;
    assert x * total == m && y * total2 == m2;
    assert (y - x) * total2 == 0.0;
  }

  lemma {:induction false} ScaledShare<K>(c: real, w: seq<real>, keys: seq<K>, k: K)
    requires c > 0.0 && Sum(w) > 0.0 && |w| == |keys|
    ensures Sum(Scaled(c, w)) > 0.0
    ensures Share(KeyMass(Scaled(c, w), keys, k), Sum(Scaled(c, w))) == Share(KeyMass(w, keys, k), Sum(w))
  {
    hide Sum, Mass, Share;
    ScaledTotal(c, w);
    MassOfScaled(c, w, keys, k, |w|);
    ShareOfScaled(c, KeyMass(w, keys, k), Sum(w), KeyMass(Scaled(c, w), keys, k), Sum(Scaled(c, w)));
  }

  function ScaledTargets<K>(a: real, target: map<K, real>): map<K, real> {
    map k | k in target :: a * target[k]
  }

  /** Weights that are not negative and add up to nothing stay what they are, whatever they are scaled by. */
  lemma {:induction false} NothingToScale(c: real, d: real, w: seq<real>)
    requires AllNonnegative(w) && Sum(w) == 0.0
    ensures Sum(Scaled(c, w)) == 0.0 && Scaled(c, w) == Scaled(d, w)
  {
    hide AllNonnegative, Sum, Scaled;
    ScaledTotal(c, w);
    TimesZero(c);
    ScaledLength(c, d, w);
    forall i | 0 <= i < |w| ensures Scaled(c, w)[i] == Scaled(d, w)[i] {
      NothingAt(w, i);
      ZeroScaled(c, w, i);
      ZeroScaled(d, w, i);
    }
  }

  lemma {:induction false} TimesZero(c: real)
    ensures c * 0.0 == 0.0
  {
  }

  lemma {:induction false} ScaledLength(c: real, d: real, w: seq<real>)
    ensures |Scaled(c, w)| == |Scaled(d, w)| == |w|
  {
  }

  lemma {:induction false} ZeroScaled(c: real, w: seq<real>, i: nat)
    requires i < |w| && w[i] == 0.0
    ensures i < |Scaled(c, w)| && Scaled(c, w)[i] == 0.0
  {
    TimesZero(c);
  }

  lemma {:induction false} NothingAt(w: seq<real>, i: nat)
    requires AllNonnegative(w) && Sum(w) == 0.0 && i < |w|
    ensures w[i] == 0.0
  {
    PrefixNonnegative(w, i);
    PrefixMonotone(w, i + 1, |w|);
    assert Prefix(w, i + 1) == Prefix(w, i) + w[i];
  }

  /** Scaling the weights by c and the targets by a scales the fitted weights by c * a. */
  lemma {:induction false} FittedScaled<K(!new)>(c: real, a: real, d: real, w: seq<real>, keys: seq<K>,
                                                 target: map<K, real>)
    requires c > 0.0 && a > 0.0 && d == c * a && AllNonnegative(w) && |w| == |keys|
    requires forall i | 0 <= i < |keys| :: keys[i] in target
    ensures Fitted(Scaled(c, w), keys, ScaledTargets(a, target)) == Scaled(d, Fitted(w, keys, target))
  {
    hide Sum, KeyMass, Share, FitGain;
    SumNonnegative(w);
    if Sum(w) == 0.0 {
      NothingToScale(c, d, w);
    } else {
      ScaledTotal(c, w);
      ProductPositive(c, Sum(w));
      forall i | 0 <= i < |w|
        ensures Fitted(Scaled(c, w), keys, ScaledTargets(a, target))[i] == Scaled(d, Fitted(w, keys, target))[i]
      {
        FittedEntryScaled(c, a, d, w, keys, target, i);
      }
    }
  }

  lemma {:induction false} FittedEntryScaled<K>(c: real, a: real, d: real, w: seq<real>, keys: seq<K>,
                                                target: map<K, real>, i: nat)
    requires c > 0.0 && d == c * a && Sum(w) > 0.0 && AllNonnegative(w) && i < |w| == |keys| && keys[i] in target
    ensures Sum(Scaled(c, w)) > 0.0
    ensures Scaled(c, w)[i] * FitGain(Scaled(c, w), keys, ScaledTargets(a, target), keys[i]) ==
            d * (w[i] * FitGain(w, keys, target, keys[i]))
  {
    hide Sum, KeyMass, Share, FitGain, AllNonnegative;
    SameFit(c, a, w, keys, target, i);
    var g, h := FitGain(w, keys, target, keys[i]), FitGain(Scaled(c, w), keys, ScaledTargets(a, target), keys[i]);
    if w[i] == 0.0 {
      ZeroProducts(c, d, w[i], g, h);
    } else {
      Interchange(c, w[i], a, d, g);
    }
  }

  lemma {:induction false} ZeroProducts(c: real, d: real, x: real, g: real, h: real)
    requires x == 0.0
    ensures c * x * h == d * (x * g)
  {
  }

  /** A key without weight is not rescaled, but then its entries have no weight either. */
  lemma {:induction false} SameFit<K>(c: real, a: real, w: seq<real>, keys: seq<K>, target: map<K, real>, i: nat)
    requires c > 0.0 && Sum(w) > 0.0 && AllNonnegative(w) && i < |w| == |keys| && keys[i] in target
    ensures Sum(Scaled(c, w)) > 0.0
    ensures w[i] == 0.0 ||
            FitGain(Scaled(c, w), keys, ScaledTargets(a, target), keys[i]) == a * FitGain(w, keys, target, keys[i])
  {
    hide Sum, KeyMass, Share;
    ScaledShare(c, w, keys, keys[i]);
    ShareRange(w, keys, keys[i]);
    var s := Share(KeyMass(w, keys, keys[i]), Sum(w));
    if s > 0.0 {
      ScaledQuotient(a, target[keys[i]], s);
    }
  }

  lemma {:induction false} NudgedScaled<K>(c: real, w: seq<real>, keys: seq<K>, share: real, factor: real)
    requires c > 0.0 && AllNonnegative(w) && |w| == |keys|
    ensures Nudged(Scaled(c, w), keys, share, factor) == Scaled(c, Nudged(w, keys, share, factor))
  {
    hide Sum, KeyMass, Share, NudgeGain;
    SumNonnegative(w);
    if Sum(w) == 0.0 {
      NothingToScale(c, c, w);
    } else {
      ScaledTotal(c, w);
      ProductPositive(c, Sum(w));
      forall i | 0 <= i < |w|
        ensures Nudged(Scaled(c, w), keys, share, factor)[i] == Scaled(c, Nudged(w, keys, share, factor))[i]
      {
        SameNudge(c, w, keys, share, factor, i);
        Associate(c, w[i], NudgeGain(w, keys, share, factor, keys[i]));
      }
    }
  }

  lemma {:induction false} SameNudge<K>(c: real, w: seq<real>, keys: seq<K>, share: real, factor: real, i: nat)
    requires c > 0.0 && Sum(w) > 0.0 && i < |w| == |keys|
    ensures Sum(Scaled(c, w)) > 0.0
    ensures NudgeGain(Scaled(c, w), keys, share, factor, keys[i]) == NudgeGain(w, keys, share, factor, keys[i])
  {
    hide Sum, KeyMass, Share;
    ScaledShare(c, w, keys, keys[i]);
  }

  // ---------- what a step leaves alone ----------

  /** Weights without a total, and entries whose runner has no target, are left alone by the fit; weights without a
      total by the nudge too. */
  lemma {:induction false} LeftAlone<K(!new)>(w: seq<real>, keys: seq<K>, target: map<K, real>, share: real,
                                              factor: real, i: nat)
    requires i < |w| == |keys|
    ensures Sum(w) == 0.0 ==> Fitted(w, keys, target) == w && Nudged(w, keys, share, factor) == w
    ensures keys[i] !in target ==> Fitted(w, keys, target)[i] == w[i]
  {
    hide Sum, KeyMass, Share;
  }
}
