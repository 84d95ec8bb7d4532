/** The FORECAST odds of ordered pairs (generateForecastOdds of internal/racegen/generators/odds.go). */
module Forecast {
  import opened Arithmetic
  import opened Basics
  import opened CertifiedDraws
  import opened ClampedNormal
  import opened Ordering
  import opened OddsVector

  /** One factor for all pairs, or a mean for each odds rank of the first runner. */
  datatype Config = Config(flat: Spread, ranked: bool, means: seq<real>, std: real, min: real, max: real)

  ghost predicate ValidConfig(c: Config, n: nat) {
    Ordered(c.flat) && (c.ranked ==> |c.means| == n && c.min <= c.max)
  }

  // ---------- ranks ----------

  /** How many slots have lower odds, or the same odds and a lower number. */
  ghost function RankOf(win: seq<real>, s: nat): nat
    requires s < |win|
  {
    |set t: nat | t < |win| && Before(win, t, s)|
  }

  /** A slot's rank is its place in the sorted order. */
  lemma {:induction false} RankIsPlace(win: seq<real>, r: nat)
    requires r < |win|
    ensures RankOf(win, SlotOrder(win)[r]) == r
  {
    hide SlotOrder;
    var order := SlotOrder(win);
    SlotOrderPermutes(win);
    forall t: nat ensures t in ToSet(order[..r]) <==> t < |win| && Before(win, t, order[r]) {
      if t < |win| {
        var k := PlaceOf(win, t);
        assert k < r ==> order[..r][k] == t;
        assert k < r ==> Before(win, order[k], order[r]);
        assert k > r ==> Before(win, order[r], order[k]);
      }
    }
    assert ToSet(order[..r]) == set t: nat | t < |win| && Before(win, t, order[r]);
    ToSetCount(order[..r]);
  }

  method RankTable(win: seq<real>) returns (rankOf: seq<nat>)
    ensures |rankOf| == |win| && forall s: nat | s < |win| :: rankOf[s] == RankOf(win, s)
    ensures Permutation(rankOf)
  {
    hide SlotOrder, RankOf;
    var order := SlotOrder(win);
    SlotOrderPermutes(win);
    var a := new nat[|win|](i => 0);
    for r := 0 to |order|
      invariant forall k | 0 <= k < r :: a[order[k]] == k
    {
      a[order[r]] := r;
    }
    rankOf := a[..];
    forall s: nat | s < |win| ensures rankOf[s] == RankOf(win, s) && rankOf[s] < |win| && order[rankOf[s]] == s {
      var k := PlaceOf(win, s);
      RankIsPlace(win, k);
    }
  }

  // ---------- the pairs ----------

  /** The pairs of runner i with each of the first k runners but itself. */
  function Row(i: nat, k: nat): seq<(nat, nat)> {
    if k == 0 then [] else Row(i, k - 1) + if k - 1 == i then [] else [(i, k - 1)]
  }

  /** The rows of the first k runners among n. */
  function Rows(n: nat, k: nat): seq<(nat, nat)> {
    if k == 0 then [] else Rows(n, k - 1) + Row(k - 1, n)
  }

  function Pairs(n: nat): seq<(nat, nat)> {
    Rows(n, n)
  }

  lemma {:induction false} RowStep(i: nat, k: nat)
    ensures Row(i, 0) == [] && Row(i, k + 1) == Row(i, k) + if k == i then [] else [(i, k)]
  {
  }

  lemma {:induction false} RowsStep(n: nat, k: nat)
    ensures Rows(n, 0) == [] && Rows(n, k + 1) == Rows(n, k) + Row(k, n)
  {
  }

  lemma {:induction false} RowCount(i: nat, k: nat)
    ensures |Row(i, k)| == if i < k then k - 1 else k
    ensures forall t | 0 <= t < |Row(i, k)| :: Row(i, k)[t].0 == i
  {
    if k > 0 {
      RowCount(i, k - 1);
    }
  }

  lemma {:induction false} InRow(i: nat, k: nat, p: (nat, nat))
    ensures p in Row(i, k) <==> p.0 == i && p.1 < k && p.1 != i
  {
    if k > 0 {
      InRow(i, k - 1, p);
    }
  }

  lemma {:induction false} InRows(n: nat, k: nat, p: (nat, nat))
    requires k <= n
    ensures p in Rows(n, k) <==> p.0 < k && p.1 < n && p.0 != p.1
  {
    hide Row;
    if k > 0 {
      InRows(n, k - 1, p);
      InRow(k - 1, n, p);
    }
  }

  lemma {:induction false} RowsCount(n: nat, k: nat)
    requires k <= n
    ensures |Rows(n, k)| == k * (n - 1)
    ensures forall t | 0 <= t < |Rows(n, k)| :: Rows(n, k)[t].0 < k
  {
    hide Row;
    if k > 0 {
      RowsCount(n, k - 1);
      RowCount(k - 1, n);
      MulAdd(k - 1, 1, n - 1);
    }
  }

  /** Every ordered pair of different runners, n * (n - 1) in all. */
  lemma {:induction false} AllPairsListed(n: nat, p: (nat, nat))
    ensures p in Pairs(n) <==> p.0 < n && p.1 < n && p.0 != p.1
    ensures |Pairs(n)| == n * (n - 1)
  {
    hide Rows;
    InRows(n, n, p);
    RowsCount(n, n);
  }

  // ---------- the factors ----------

  /** The spread of the factor for pairs that start with runner i. */
  ghost function FactorSpread(c: Config, win: seq<real>, i: nat): Spread
    requires i < |win| && ValidConfig(c, |win|)
  {
    if c.ranked then
      RankBelow(win, i);
      Spread(c.means[RankOf(win, i)], c.std, c.min, c.max)
    else c.flat
  }

  lemma {:induction false} RankBelow(win: seq<real>, s: nat)
    requires s < |win|
    ensures RankOf(win, s) < |win|
  {
    hide SlotOrder, RankOf;
    var k := PlaceOf(win, s);
    RankIsPlace(win, k);
  }

  /** The rounded product of two runners' odds and a factor. */
  function Product1(a: real, b: real, f: real): real {
    Round1(a * b * f)
  }

  ghost predicate Inside(win: seq<real>, pairs: seq<(nat, nat)>) {
    forall k | 0 <= k < |pairs| :: pairs[k].0 < |win| && pairs[k].1 < |win|
  }

  /** The spreads that the factors of the pairs are drawn from, pair by pair. */
  ghost function FactorSpreads(c: Config, win: seq<real>, pairs: seq<(nat, nat)>): (ds: seq<Spread>)
    requires ValidConfig(c, |win|) && Inside(win, pairs)
    ensures |ds| == |pairs|
  {
    seq(|pairs|, k requires 0 <= k < |pairs| => FactorSpread(c, win, pairs[k].0))
  }

  /** The pairs' odds, with the factors drawn from position p of the word stream. */
  ghost function PairOdds(g: BoxMuller, c: Config, words: nat -> Word, p: nat, win: seq<real>,
                          pairs: seq<(nat, nat)>): (odds: seq<real>)
    requires ValidConfig(c, |win|) && Inside(win, pairs)
    ensures |odds| == |pairs|
  {
    var fs := Drawn(g, words, p, FactorSpreads(c, win, pairs));
    seq(|pairs|, k requires 0 <= k < |pairs| => Product1(win[pairs[k].0], win[pairs[k].1], fs[k]))
  }

  ghost function PairsEnd(g: BoxMuller, c: Config, words: nat -> Word, p: nat, win: seq<real>,
                          pairs: seq<(nat, nat)>): nat
    requires ValidConfig(c, |win|) && Inside(win, pairs)
  {
    DrawsEnd(g, words, p, FactorSpreads(c, win, pairs))
  }

  lemma {:induction false} OneMorePair(g: BoxMuller, c: Config, words: nat -> Word, p: nat, win: seq<real>,
                                       done: seq<(nat, nat)>, i: nat, j: nat)
    requires ValidConfig(c, |win|) && Inside(win, done) && i < |win| && j < |win|
    ensures Inside(win, done + [(i, j)])
    ensures var q, d := PairsEnd(g, c, words, p, win, done), FactorSpread(c, win, i);
            && PairsEnd(g, c, words, p, win, done + [(i, j)]) == ClampedEnd(g, words, q, d)
            && PairOdds(g, c, words, p, win, done + [(i, j)]) ==
                 PairOdds(g, c, words, p, win, done) + [Product1(win[i], win[j], ClampedAt(g, words, q, d))]
  {
    hide Product1, FactorSpread, ClampedAt, ClampedEnd, Drawn, DrawsEnd;
    var ds, d := FactorSpreads(c, win, done), FactorSpread(c, win, i);
    assert FactorSpreads(c, win, done + [(i, j)]) == ds + [d];
    OneMoreDraw(g, words, p, ds, d);
  }

  lemma {:induction false} NoPairs(g: BoxMuller, c: Config, words: nat -> Word, p: nat, win: seq<real>)
    requires ValidConfig(c, |win|)
    ensures Inside(win, []) && PairOdds(g, c, words, p, win, []) == [] && PairsEnd(g, c, words, p, win, []) == p
  {
  }

  /** One factor for each ordered pair, drawn in the order of the pairs. */
  method GenerateForecastOdds(g: BoxMuller, src: Source, win: seq<real>, c: Config) returns (out: seq<real>)
    requires ValidConfig(c, |win|)
    modifies src
    ensures |out| == |win| * (|win| - 1) && Inside(win, Pairs(|win|))
    ensures out == PairOdds(g, c, src.words, old(src.pos), win, Pairs(|win|))
    ensures src.pos == PairsEnd(g, c, src.words, old(src.pos), win, Pairs(|win|))
  {
    hide *;
    ghost var p := src.pos;
    var n := |win|;
    var rankOf := RankTable(win);
    AllPairsListed(n, (0, 0));
    out := [];
    ghost var done: seq<(nat, nat)> := [];
    NoPairs(g, c, src.words, p, win);
    RowsStep(n, 0);
    for i := 0 to n
      invariant done == Rows(n, i) && Inside(win, done)
      invariant out == PairOdds(g, c, src.words, p, win, done) && src.pos == PairsEnd(g, c, src.words, p, win, done)
    {
      RowStep(i, 0);
      assert Rows(n, i) + [] == Rows(n, i);
      for j := 0 to n
        invariant done == Rows(n, i) + Row(i, j) && Inside(win, done)
        invariant out == PairOdds(g, c, src.words, p, win, done) && src.pos == PairsEnd(g, c, src.words, p, win, done)
      {
        RowStep(i, j);
        if i != j {
          SpreadIs(c, win, i);
          var spread := if c.ranked then Spread(c.means[RankAt(win, rankOf, i)], c.std, c.min, c.max) else c.flat;
          OneMorePair(g, c, src.words, p, win, done, i, j);
          var factor := Clamped(g, src, spread);
          assert Rows(n, i) + Row(i, j) + [(i, j)] == Rows(n, i) + (Row(i, j) + [(i, j)]);
          done, out := done + [(i, j)], out + [Product1(win[i], win[j], factor)];
        } else {
          assert Row(i, j) + [] == Row(i, j);
        }
      }
      RowsStep(n, i);
    }
    PairsAreRows(n);
  }

  /** Every pair's odds are the rounded product of its runners' odds and a factor within the first one's range. */
  lemma {:induction false} FactorsWithinRange(g: BoxMuller, c: Config, words: nat -> Word, p: nat, win: seq<real>,
                                              pairs: seq<(nat, nat)>, k: nat)
    requires ValidConfig(c, |win|) && Inside(win, pairs) && k < |pairs|
    ensures exists f: real ::
              && InRange(f, FactorSpread(c, win, pairs[k].0))
              && PairOdds(g, c, words, p, win, pairs)[k] == Product1(win[pairs[k].0], win[pairs[k].1], f)
  {
    hide Product1, Drawn, RankOf;
    var ds := FactorSpreads(c, win, pairs);
    forall i | 0 <= i < |ds| ensures Ordered(ds[i]) {
      SpreadIs(c, win, pairs[i].0);
    }
    DrawnInRange(g, words, p, ds);
    assert InRange(Drawn(g, words, p, ds)[k], FactorSpread(c, win, pairs[k].0));
  }

  lemma {:induction false} PairsAreRows(n: nat)
    ensures Pairs(n) == Rows(n, n)
  {
  }

  function RankAt(win: seq<real>, rankOf: seq<nat>, i: nat): (r: nat)
    requires |rankOf| == |win| && i < |win| && forall s: nat | s < |win| :: rankOf[s] == RankOf(win, s)
    ensures r == RankOf(win, i) && r < |win|
  {
    RankBelow(win, i);
    rankOf[i]
  }

  lemma {:induction false} SpreadIs(c: Config, win: seq<real>, i: nat)
    requires i < |win| && ValidConfig(c, |win|)
    ensures RankOf(win, i) < |win| && (c.ranked ==> |c.means| == |win|)
    ensures FactorSpread(c, win, i) == if c.ranked then Spread(c.means[RankOf(win, i)], c.std, c.min, c.max) else c.flat
    ensures Ordered(FactorSpread(c, win, i))
  {
    RankBelow(win, i);
  }

  // ---------- the means ----------

  function SpreadMeans(means: seq<real>, ranks: seq<nat>, pairs: seq<(nat, nat)>): (r: seq<real>)
    requires forall s | 0 <= s < |ranks| :: ranks[s] < |means|
    requires forall k | 0 <= k < |pairs| :: pairs[k].0 < |ranks|
    ensures |r| == |pairs|
  {
    seq(|pairs|, k requires 0 <= k < |pairs| => means[ranks[pairs[k].0]])
  }

  lemma {:induction false} SpreadAppend(means: seq<real>, ranks: seq<nat>, a: seq<(nat, nat)>, b: seq<(nat, nat)>)
    requires forall s | 0 <= s < |ranks| :: ranks[s] < |means|
    requires (forall k | 0 <= k < |a| :: a[k].0 < |ranks|) && forall k | 0 <= k < |b| :: b[k].0 < |ranks|
    ensures Sum(SpreadMeans(means, ranks, a + b)) ==
            Sum(SpreadMeans(means, ranks, a)) + Sum(SpreadMeans(means, ranks, b))
  {
    hide Sum;
    assert SpreadMeans(means, ranks, a + b) == SpreadMeans(means, ranks, a) + SpreadMeans(means, ranks, b);
    SumConcat(SpreadMeans(means, ranks, a), SpreadMeans(means, ranks, b));
  }

  lemma {:induction false} RowTotal(means: seq<real>, ranks: seq<nat>, row: seq<(nat, nat)>, i: nat)
    requires i < |ranks| && forall s | 0 <= s < |ranks| :: ranks[s] < |means|
    requires forall t | 0 <= t < |row| :: row[t].0 == i
    ensures Sum(SpreadMeans(means, ranks, row)) == |row| as real * means[ranks[i]]
  {
    SameMeans(SpreadMeans(means, ranks, row), means[ranks[i]], |row|);
  }

  lemma {:induction false} SameMeans(v: seq<real>, x: real, k: nat)
    requires k <= |v| && forall t | 0 <= t < |v| :: v[t] == x
    ensures Prefix(v, k) == k as real * x
  {
    if k > 0 {
      SameMeans(v, x, k - 1);
    }
  }

  lemma {:induction false} RowsTotal(means: seq<real>, ranks: seq<nat>, n: nat, k: nat)
    requires k <= n == |ranks| && forall s | 0 <= s < |ranks| :: ranks[s] < |means|
    ensures forall t | 0 <= t < |Rows(n, k)| :: Rows(n, k)[t].0 < n
    ensures Sum(SpreadMeans(means, ranks, Rows(n, k))) == (n - 1) as real * Prefix(Gather(means, ranks), k)
  {
    hide Sum, SpreadMeans, Row, Rows, Gather, Prefix;
    RowsCount(n, k);
    if k == 0 {
      NoMeans(means, ranks);
      RowsStep(n, 0);
      NoPrefix(Gather(means, ranks), (n - 1) as real);
    } else {
      RowsTotal(means, ranks, n, k - 1);
      RowCount(k - 1, n);
      RowTotal(means, ranks, Row(k - 1, n), k - 1);
      RowsCount(n, k - 1);
      RowsStep(n, k - 1);
      SpreadAppend(means, ranks, Rows(n, k - 1), Row(k - 1, n));
      OneMoreMean(means, ranks, k, (n - 1) as real);
    }
  }

  lemma {:induction false} NoPrefix(v: seq<real>, c: real)
    ensures c * Prefix(v, 0) == 0.0
  {
  }

  lemma {:induction false} OneMoreMean(means: seq<real>, ranks: seq<nat>, k: nat, c: real)
    requires 0 < k <= |ranks| && forall s | 0 <= s < |ranks| :: ranks[s] < |means|
    ensures var g := Gather(means, ranks);
            c * Prefix(g, k) == c * Prefix(g, k - 1) + c * means[ranks[k - 1]]
  {
    GatherAt(means, ranks, k);
    Distribute(c, Prefix(Gather(means, ranks), k - 1), means[ranks[k - 1]]);
  }

  lemma {:induction false} GatherAt(means: seq<real>, ranks: seq<nat>, k: nat)
    requires k <= |ranks| && forall s | 0 <= s < |ranks| :: ranks[s] < |means|
    ensures k > 0 ==> Gather(means, ranks)[k - 1] == means[ranks[k - 1]]
  {
  }

  lemma {:induction false} NoMeans(means: seq<real>, ranks: seq<nat>)
    requires forall s | 0 <= s < |ranks| :: ranks[s] < |means|
    ensures Sum(SpreadMeans(means, ranks, [])) == 0.0
  {
  }

  /** Whatever odds stand in whatever slots, ties included, the factor means of all ordered pairs add up
      to n - 1 times the sum of the configured means: the forecast's overall level does not depend on the
      race. */
  lemma {:induction false} FactorMeansTotal(means: seq<real>, win: seq<real>, ranks: seq<nat>)
    requires |means| == |win| == |ranks| && forall s: nat | s < |win| :: ranks[s] == RankOf(win, s)
    ensures forall s | 0 <= s < |ranks| :: ranks[s] < |means|
    ensures forall k | 0 <= k < |Pairs(|win|)| :: Pairs(|win|)[k].0 < |ranks|
    ensures Sum(SpreadMeans(means, ranks, Pairs(|win|))) == (|win| - 1) as real * Sum(means)
  {
    hide RankOf, Sum, SpreadMeans, Gather;
    RanksPermute(win, ranks);
    RowsTotal(means, ranks, |win|, |win|);
    PermutationGathers(means, ranks);
    SumRearranged(Gather(means, ranks), means);
    WholePrefix(Gather(means, ranks));
  }

  lemma {:induction false} WholePrefix(v: seq<real>)
    ensures Prefix(v, |v|) == Sum(v)
  {
  }

  lemma {:induction false} RanksPermute(win: seq<real>, ranks: seq<nat>)
    requires |win| == |ranks| && forall s: nat | s < |win| :: ranks[s] == RankOf(win, s)
    ensures Permutation(ranks)
  {
    hide RankOf, SlotOrder;
    var order := SlotOrder(win);
    SlotOrderPermutes(win);
    forall s: nat | s < |win| ensures ranks[s] < |win| && order[ranks[s]] == s {
      var k := PlaceOf(win, s);
      RankIsPlace(win, k);
    }
  }

  /** A pair's odds are within half a tenth of the product of both runners' odds and the factor. */
  lemma {:induction false} PairOddsNearProduct(a: real, b: real, f: real)
    ensures -0.05 <= a * b * f - Product1(a, b, f) <= 0.05
    ensures (Product1(a, b, f) * 10.0).Floor as real == Product1(a, b, f) * 10.0
  {
    RoundedToTenth(a * b * f);
  }

  // ---------- the order of the pairs ----------

  /** Runner by runner, each with the others in turn: the pair of i and j stands after the i * (n - 1) pairs of the
      runners before i and the pairs of i with those before j, itself left out. */
  lemma {:induction false} PairPlace(n: nat, i: nat, j: nat)
    requires i < n && j < n && i != j
    ensures var k := i * (n - 1) + if j < i then j else j - 1;
            0 <= k < |Pairs(n)| && Pairs(n)[k] == (i, j)
  {
    hide Row;
    RowsCount(n, i);
    RowPlace(i, n, j);
    RowsHold(n, i, n, if j < i then j else j - 1);
  }

  lemma {:induction false} RowPlace(i: nat, n: nat, j: nat)
    requires j < n && i != j
    ensures var k := if j < i then j else j - 1;
            0 <= k < |Row(i, n)| && Row(i, n)[k] == (i, j)
  {
    RowCount(i, n);
    RowCount(i, n - 1);
    if j < n - 1 {
      RowPlace(i, n - 1, j);
    }
  }

  lemma {:induction false} RowsHold(n: nat, i: nat, k: nat, t: nat)
    requires i < k <= n && t < |Row(i, n)|
    ensures |Rows(n, i)| + t < |Rows(n, k)| && Rows(n, k)[|Rows(n, i)| + t] == Row(i, n)[t]
    decreases k
  {
    hide Row;
    if k - 1 > i {
      RowsHold(n, i, k - 1, t);
    }
  }
}
