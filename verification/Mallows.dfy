/** mallowsAssign (internal/racegen/generators/odds.go:331-367): repeated insertion draws a
    ranking with probability exactly proportional to q ^ inversions, where q = exp(-theta). */
module Mallows {
  import opened Arithmetic
  import opened Basics
  import opened CertifiedDraws
  import opened WeightedDraw

  // ---------- insertion codes and the rankings they build ----------

  /** Element i goes to one of the positions 0..i. */
  ghost predicate InsertionCode(cs: seq<nat>) {
    forall i | 0 <= i < |cs| :: cs[i] <= i
  }

  function InsertAt(list: seq<nat>, pos: nat, x: nat): (r: seq<nat>)
    requires pos <= |list|
    ensures |r| == |list| + 1
  {
    list[..pos] + [x] + list[pos..]
  }

  /** The list after inserting 0, 1, .., |cs|-1 at the given positions. */
  function InsertedList(cs: seq<nat>): (r: seq<nat>)
    requires InsertionCode(cs)
    ensures |r| == |cs|
  {
    if |cs| == 0 then [] else
      var m := |cs| - 1;
      InsertAt(InsertedList(cs[..m]), cs[m], m)
  }

  /** The rank a gap at pos gives to the element that had rank v. */
  function MakeRoom(v: nat, pos: nat): nat {
    if v >= pos then v + 1 else v
  }

  function CloseGap(v: nat, pos: nat): nat {
    if v > pos then v - 1 else v
  }

  /** The ranking of one element more, which takes rank pos. */
  function Extend(p: seq<nat>, pos: nat): (r: seq<nat>)
    ensures |r| == |p| + 1
  {
    seq(|p|, i requires 0 <= i < |p| => MakeRoom(p[i], pos)) + [pos]
  }

  function Retract(p: seq<nat>): (r: seq<nat>)
    requires |p| > 0
    ensures |r| == |p| - 1
  {
    seq(|p| - 1, i requires 0 <= i < |p| - 1 => CloseGap(p[i], p[|p| - 1]))
  }

  /** The ranking built by a code: entry r is the final position of element r. */
  function Ranks(cs: seq<nat>): (p: seq<nat>)
    requires InsertionCode(cs)
    ensures |p| == |cs|
  {
    if |cs| == 0 then [] else Extend(Ranks(cs[..|cs| - 1]), cs[|cs| - 1])
  }

  function CodeOf(p: seq<nat>): (cs: seq<nat>)
    ensures |cs| == |p|
    decreases |p|
  {
    if |p| == 0 then [] else CodeOf(Retract(p)) + [p[|p| - 1]]
  }

  lemma {:induction false} ExtendPermutation(p: seq<nat>, pos: nat)
    requires Permutation(p) && pos <= |p|
    ensures Permutation(Extend(p, pos))
    ensures Retract(Extend(p, pos)) == p
  {
  }

  lemma {:induction false} RetractPermutation(p: seq<nat>)
    requires Permutation(p) && |p| > 0
    ensures Permutation(Retract(p))
    ensures Extend(Retract(p), p[|p| - 1]) == p
  {
    var m := |p| - 1;
    forall i | 0 <= i < m ensures p[i] != p[m] {
    }
    RetractBounded(p);
  }

  /** Ranks above the last one move down and ranks below it stay below |p| - 1. */
  lemma {:induction false} RetractBounded(p: seq<nat>)
    requires Permutation(p) && |p| > 0
    ensures forall i | 0 <= i < |p| - 1 :: Retract(p)[i] < |p| - 1
  {
    forall i | 0 <= i < |p| - 1 ensures Retract(p)[i] < |p| - 1 {
      assert p[i] != p[|p| - 1];
    }
  }

  lemma {:induction false} RanksPermutation(cs: seq<nat>)
    requires InsertionCode(cs)
    ensures Permutation(Ranks(cs))
  {
    if |cs| > 0 {
      RanksPermutation(cs[..|cs| - 1]);
      ExtendPermutation(Ranks(cs[..|cs| - 1]), cs[|cs| - 1]);
    }
  }

  /** Every code is recovered from its ranking. */
  lemma {:induction false} CodeRecovered(cs: seq<nat>)
    requires InsertionCode(cs)
    ensures CodeOf(Ranks(cs)) == cs
  {
    if |cs| > 0 {
      var m := |cs| - 1;
      CodeRecovered(cs[..m]);
      RanksPermutation(cs[..m]);
      ExtendPermutation(Ranks(cs[..m]), cs[m]);
      assert cs == cs[..m] + [cs[m]];
    }
  }

  /** Every ranking is built by a code. */
  lemma {:induction false} RankingReached(p: seq<nat>)
    requires Permutation(p)
    ensures InsertionCode(CodeOf(p)) && Ranks(CodeOf(p)) == p
    decreases |p|
  {
    if |p| > 0 {
      var m := |p| - 1;
      RetractPermutation(p);
      RankingReached(Retract(p));
      assert CodeOf(p)[..m] == CodeOf(Retract(p));
    }
  }

  // ---------- inversions ----------

  function CountAbove(p: seq<nat>, v: int): nat {
    if |p| == 0 then 0 else CountAbove(p[..|p| - 1], v) + if p[|p| - 1] > v then 1 else 0
  }

  /** For each entry, the number of earlier entries above it. */
  function Inversions(p: seq<nat>): nat {
    if |p| == 0 then 0 else Inversions(p[..|p| - 1]) + CountAbove(p[..|p| - 1], p[|p| - 1])
  }

  function Displacement(cs: seq<nat>): nat
    requires InsertionCode(cs)
  {
    if |cs| == 0 then 0 else Displacement(cs[..|cs| - 1]) + (|cs| - 1 - cs[|cs| - 1])
  }

  lemma {:induction false} CountAboveExtended(p: seq<nat>, pos: nat, v: int)
    ensures CountAbove(Extend(p, pos)[..|p|], v) == CountAbove(p, if v >= pos then v - 1 else v)
  {
    if |p| > 0 {
      var m := |p| - 1;
      CountAboveExtended(p[..m], pos, v);
      assert Extend(p, pos)[..m] == Extend(p[..m], pos)[..m];
      assert Extend(p, pos)[..|p|][..m] == Extend(p, pos)[..m];
    }
  }

  /** In a ranking of n elements, n - 1 - v of them rank above v. */
  lemma {:induction false} CountAboveRank(p: seq<nat>, v: int)
    requires Permutation(p) && -1 <= v < |p|
    ensures CountAbove(p, v) == |p| - 1 - v
    decreases |p|
  {
    var m := |p| - 1;
    if m >= 0 {
      var s := Retract(p);
      RetractPermutation(p);
      CountAboveExtended(s, p[m], v);
      CountAboveRank(s, if v >= p[m] then v - 1 else v);
      assert Extend(s, p[m])[..m] == p[..m];
    }
  }

  lemma {:induction false} InversionsExtended(p: seq<nat>, pos: nat)
    ensures Inversions(Extend(p, pos)[..|p|]) == Inversions(p)
  {
    if |p| > 0 {
      var m := |p| - 1;
      var e := Extend(p, pos);
      assert e[..|p|][..m] == e[..m] == Extend(p[..m], pos)[..m];
      InversionsExtended(p[..m], pos);
      CountAboveExtended(p[..m], pos, e[m]);
    }
  }

  /** Inserting the (n+1)-st element at pos adds exactly n - pos inversions. */
  lemma {:induction false} InversionsStep(p: seq<nat>, pos: nat)
    requires Permutation(p) && pos <= |p|
    ensures Inversions(Extend(p, pos)) == Inversions(p) + (|p| - pos)
  {
    InversionsExtended(p, pos);
    CountAboveExtended(p, pos, pos);
    CountAboveRank(p, pos - 1);
  }

  /** The total displacement of the insertions is the inversion number of the ranking. */
  lemma {:induction false} DisplacementIsInversions(cs: seq<nat>)
    requires InsertionCode(cs)
    ensures Inversions(Ranks(cs)) == Displacement(cs)
  {
    if |cs| > 0 {
      var m := |cs| - 1;
      DisplacementIsInversions(cs[..m]);
      RanksPermutation(cs[..m]);
      InversionsStep(Ranks(cs[..m]), cs[m]);
    }
  }

  // ---------- the distribution ----------

  /** Element i goes to position j with weight q ^ (i - j). */
  function InsertionWeights(q: real, i: nat): (ws: seq<real>)
    ensures |ws| == i + 1
  {
    seq(i + 1, j requires 0 <= j <= i => PowReal(q, i - j))
  }

  lemma {:induction false} InsertionWeightsPositive(q: PosReal, i: nat)
    ensures AllPositive(InsertionWeights(q, i)) && Sum(InsertionWeights(q, i)) > 0.0
  {
    forall j | 0 <= j <= i ensures InsertionWeights(q, i)[j] > 0.0 {
      PowRealPositive(q, i - j);
    }
    SumPositive(InsertionWeights(q, i));
  }

  /** The product of the ideal probabilities of the insertions (see ScanFindsSlice). */
  function CodeProbability(q: PosReal, cs: seq<nat>): real
    requires InsertionCode(cs)
  {
    if |cs| == 0 then 1.0 else
      var m := |cs| - 1;
      InsertionWeightsPositive(q, m);
      CodeProbability(q, cs[..m]) * (InsertionWeights(q, m)[cs[m]] / Sum(InsertionWeights(q, m)))
  }

  function Normaliser(q: real, n: nat): real {
    if n == 0 then 1.0 else Normaliser(q, n - 1) * Sum(InsertionWeights(q, n - 1))
  }

  lemma {:induction false} NormaliserPositive(q: PosReal, n: nat)
    ensures Normaliser(q, n) > 0.0
  {
    if n > 0 {
      NormaliserPositive(q, n - 1);
      InsertionWeightsPositive(q, n - 1);
    }
  }

  /** The weight of a ranking grows by the weight of the last insertion. */
  lemma {:induction false} LastInsertionWeight(q: real, cs: seq<nat>)
    requires |cs| > 0 && InsertionCode(cs)
    ensures var m := |cs| - 1;
            PowReal(q, Inversions(Ranks(cs))) ==
              PowReal(q, Inversions(Ranks(cs[..m]))) * InsertionWeights(q, m)[cs[m]]
  {
    hide Inversions, Ranks, PowReal;
    var m := |cs| - 1;
    DisplacementIsInversions(cs);
    DisplacementIsInversions(cs[..m]);
    PowRealAdd(q, Displacement(cs[..m]), m - cs[m]);
  }

  lemma {:induction false} EmptyCodeProbability(q: PosReal)
    ensures CodeProbability(q, []) == 1.0 == PowReal(q, Inversions(Ranks([]))) == Normaliser(q, 0)
  {
  }

  lemma {:induction false} LastInsertionProbability(q: PosReal, cs: seq<nat>, m: nat)
    requires InsertionCode(cs) && |cs| == m + 1
    ensures InsertionCode(cs[..m]) && cs[m] <= m && Sum(InsertionWeights(q, m)) > 0.0
    ensures CodeProbability(q, cs) ==
              CodeProbability(q, cs[..m]) * (InsertionWeights(q, m)[cs[m]] / Sum(InsertionWeights(q, m)))
  {
    hide Sum, InsertionWeights;
    InsertionWeightsPositive(q, m);
  }

  lemma {:induction false} CodeProbabilityIsMallows(q: PosReal, cs: seq<nat>)
    requires InsertionCode(cs)
    ensures Normaliser(q, |cs|) > 0.0
    ensures CodeProbability(q, cs) == PowReal(q, Inversions(Ranks(cs))) / Normaliser(q, |cs|)
  {
    hide *;
    NormaliserPositive(q, |cs|);
    if |cs| == 0 {
      EmptyCodeProbability(q);
      assert cs == [];
    } else {
      var m := |cs| - 1;
      LastInsertionProbability(q, cs, m);
      NormaliserUnfold(q, m + 1);
      CodeProbabilityIsMallows(q, cs[..m]);
      LastInsertionWeight(q, cs);
      ProductOfRatios(PowReal(q, Inversions(Ranks(cs[..m]))), Normaliser(q, m),
                      InsertionWeights(q, m)[cs[m]], Sum(InsertionWeights(q, m)));
    }
  }

  // ---------- all rankings ----------

  function Extensions(p: seq<nat>): (r: seq<seq<nat>>)
    ensures |r| == |p| + 1
  {
    seq(|p| + 1, pos requires 0 <= pos <= |p| => Extend(p, pos))
  }

  function ExtendAll(ps: seq<seq<nat>>): seq<seq<nat>> {
    if |ps| == 0 then [] else ExtendAll(ps[..|ps| - 1]) + Extensions(ps[|ps| - 1])
  }

  function AllRankings(n: nat): seq<seq<nat>> {
    if n == 0 then [[]] else ExtendAll(AllRankings(n - 1))
  }

  ghost predicate Rankings(ps: seq<seq<nat>>) {
    forall i | 0 <= i < |ps| :: Permutation(ps[i])
  }

  ghost predicate RankingsOf(ps: seq<seq<nat>>, n: nat) {
    forall i | 0 <= i < |ps| :: Permutation(ps[i]) && |ps[i]| == n
  }

  lemma {:induction false} ExtendAllMembers(ps: seq<seq<nat>>, e: seq<nat>)
    requires Rankings(ps)
    ensures e in ExtendAll(ps) <==> Permutation(e) && |e| > 0 && Retract(e) in ps
  {
    if |ps| > 0 {
      var m := |ps| - 1;
      ExtendAllMembers(ps[..m], e);
      ExtensionsMembers(ps[m], e);
      assert ps == ps[..m] + [ps[m]];
    }
  }

  lemma {:induction false} ExtensionsMembers(p: seq<nat>, e: seq<nat>)
    requires Permutation(p)
    ensures e in Extensions(p) <==> Permutation(e) && |e| > 0 && Retract(e) == p
  {
    if e in Extensions(p) {
      var pos :| 0 <= pos <= |p| && e == Extensions(p)[pos];
      ExtendPermutation(p, pos);
    }
    if Permutation(e) && |e| > 0 && Retract(e) == p {
      RetractPermutation(e);
      assert Extensions(p)[e[|e| - 1]] == e;
    }
  }

  lemma {:induction false} ExtendAllDistinct(ps: seq<seq<nat>>)
    requires Distinct(ps) && Rankings(ps)
    ensures Distinct(ExtendAll(ps))
  {
    if |ps| > 0 {
      var m := |ps| - 1;
      var front, back := ExtendAll(ps[..m]), Extensions(ps[m]);
      ExtendAllDistinct(ps[..m]);
      forall i, j | 0 <= i < |front| && 0 <= j < |back| ensures front[i] != back[j] {
        ExtendAllMembers(ps[..m], front[i]);
        ExtensionsMembers(ps[m], back[j]);
        assert back[j] in back;
      }
      assert forall i, j | 0 <= i < j < |back| :: back[i][|ps[m]|] != back[j][|ps[m]|];
    }
  }

  lemma {:induction false} ExtendAllRankings(ps: seq<seq<nat>>, n: nat)
    requires RankingsOf(ps, n)
    ensures RankingsOf(ExtendAll(ps), n + 1)
  {
    if |ps| > 0 {
      var m := |ps| - 1;
      ExtendAllRankings(ps[..m], n);
      forall pos | 0 <= pos <= n ensures Permutation(Extensions(ps[m])[pos]) {
        ExtendPermutation(ps[m], pos);
      }
    }
  }

  lemma {:induction false} AllRankingsDistinct(n: nat)
    ensures Distinct(AllRankings(n)) && RankingsOf(AllRankings(n), n)
  {
    if n > 0 {
      AllRankingsDistinct(n - 1);
      ExtendAllDistinct(AllRankings(n - 1));
      ExtendAllRankings(AllRankings(n - 1), n - 1);
    }
  }

  /** AllRankings lists every ranking of n elements (and, being distinct, lists it once). */
  lemma {:induction false} AllRankingsComplete(n: nat, e: seq<nat>)
    ensures e in AllRankings(n) <==> Permutation(e) && |e| == n
  {
    if n > 0 {
      AllRankingsDistinct(n - 1);
      ExtendAllMembers(AllRankings(n - 1), e);
      if Permutation(e) && |e| > 0 {
        RetractPermutation(e);
        AllRankingsComplete(n - 1, Retract(e));
      }
    }
  }

  function MallowsWeights(q: real, ps: seq<seq<nat>>): (ws: seq<real>)
    ensures |ws| == |ps|
  {
    seq(|ps|, i requires 0 <= i < |ps| => PowReal(q, Inversions(ps[i])))
  }

  lemma {:induction false} ExtensionWeight(q: real, p: seq<nat>, pos: nat)
    requires Permutation(p) && pos <= |p|
    ensures PowReal(q, Inversions(Extend(p, pos))) == PowReal(q, Inversions(p)) * PowReal(q, |p| - pos)
  {
    InversionsStep(p, pos);
    PowRealAdd(q, Inversions(p), |p| - pos);
  }

  lemma {:induction false} ExtensionWeights(q: real, p: seq<nat>)
    requires Permutation(p)
    ensures MallowsWeights(q, Extensions(p)) == Scaled(PowReal(q, Inversions(p)), InsertionWeights(q, |p|))
  {
    hide Extend, Inversions, PowReal;
    forall pos | 0 <= pos <= |p|
      ensures MallowsWeights(q, Extensions(p))[pos] == Scaled(PowReal(q, Inversions(p)), InsertionWeights(q, |p|))[pos]
    {
      ExtensionWeight(q, p, pos);
    }
  }

  lemma {:induction false} ExtensionsWeight(q: real, p: seq<nat>)
    requires Permutation(p)
    ensures Sum(MallowsWeights(q, Extensions(p))) == PowReal(q, Inversions(p)) * Sum(InsertionWeights(q, |p|))
  {
    hide *;
    ExtensionWeights(q, p);
    ScaledTotal(PowReal(q, Inversions(p)), InsertionWeights(q, |p|));
  }

  lemma {:induction false} MallowsWeightsConcat(q: real, a: seq<seq<nat>>, b: seq<seq<nat>>)
    ensures Sum(MallowsWeights(q, a + b)) == Sum(MallowsWeights(q, a)) + Sum(MallowsWeights(q, b))
  {
    assert MallowsWeights(q, a + b) == MallowsWeights(q, a) + MallowsWeights(q, b);
    SumConcat(MallowsWeights(q, a), MallowsWeights(q, b));
  }

  lemma {:induction false} MallowsWeightOne(q: real, p: seq<nat>)
    ensures Sum(MallowsWeights(q, [p])) == PowReal(q, Inversions(p))
  {
    assert Prefix(MallowsWeights(q, [p]), 1) == Prefix(MallowsWeights(q, [p]), 0) + PowReal(q, Inversions(p));
  }

  lemma {:induction false} ExtendAllLast(ps: seq<seq<nat>>, m: nat)
    requires |ps| == m + 1
    ensures ExtendAll(ps) == ExtendAll(ps[..m]) + Extensions(ps[m])
  {
    hide Extensions;
  }

  lemma {:induction false} RankingsLast(ps: seq<seq<nat>>, m: nat, n: nat)
    requires |ps| == m + 1 && RankingsOf(ps, n)
    ensures RankingsOf(ps[..m], n) && Permutation(ps[m]) && |ps[m]| == n
  {
    hide Permutation;
  }

  lemma {:induction false} NoWeight(q: real)
    ensures Sum(MallowsWeights(q, [])) == 0.0 && ExtendAll([]) == []
  {
  }

  lemma {:induction false} ExtendAllWeight(q: real, ps: seq<seq<nat>>, n: nat)
    requires RankingsOf(ps, n)
    ensures Sum(MallowsWeights(q, ExtendAll(ps))) == Sum(MallowsWeights(q, ps)) * Sum(InsertionWeights(q, n))
  {
    hide *;
    if |ps| == 0 {
      NoWeight(q);
    } else {
      var m := |ps| - 1;
      var p := ps[m];
      ExtendAllLast(ps, m);
      RankingsLast(ps, m, n);
      assert ps == ps[..m] + [p];
      ExtendAllWeight(q, ps[..m], n);
      ExtensionsWeight(q, p);
      MallowsWeightsConcat(q, ExtendAll(ps[..m]), Extensions(p));
      MallowsWeightsConcat(q, ps[..m], [p]);
      MallowsWeightOne(q, p);
      CombineProducts(Sum(MallowsWeights(q, ps)), Sum(MallowsWeights(q, ps[..m])), PowReal(q, Inversions(p)),
                      Sum(InsertionWeights(q, n)), Sum(MallowsWeights(q, ExtendAll(ps[..m]))),
                      Sum(MallowsWeights(q, Extensions(p))));
    }
  }

  lemma {:induction false} NormaliserUnfold(q: real, n: nat)
    ensures n > 0 ==> AllRankings(n) == ExtendAll(AllRankings(n - 1))
    ensures n > 0 ==> Normaliser(q, n) == Normaliser(q, n - 1) * Sum(InsertionWeights(q, n - 1))
    ensures AllRankings(0) == [[]] && Normaliser(q, 0) == PowReal(q, Inversions([]))
  {
  }

  /** The normalising product is the sum of q ^ inversions over all rankings. */
  lemma {:induction false} NormaliserIsTotal(q: real, n: nat)
    ensures Sum(MallowsWeights(q, AllRankings(n))) == Normaliser(q, n)
  {
    hide *;
    NormaliserUnfold(q, n);
    if n == 0 {
      MallowsWeightOne(q, []);
    } else {
      NormaliserIsTotal(q, n - 1);
      AllRankingsDistinct(n - 1);
      ExtendAllWeight(q, AllRankings(n - 1), n - 1);
    }
  }

  /** Repeated insertion is the Mallows model: each ranking of n elements comes from exactly one
      insertion code, whose probability is q ^ inversions over the sum of that over all rankings. */
  lemma {:induction false} RepeatedInsertionIsMallows(q: PosReal, p: seq<nat>)
    requires Permutation(p)
    ensures InsertionCode(CodeOf(p)) && forall cs | InsertionCode(cs) :: Ranks(cs) == p <==> cs == CodeOf(p)
    ensures Sum(MallowsWeights(q, AllRankings(|p|))) > 0.0
    ensures CodeProbability(q, CodeOf(p)) == PowReal(q, Inversions(p)) / Sum(MallowsWeights(q, AllRankings(|p|)))
  {
    RankingReached(p);
    forall cs | InsertionCode(cs) ensures Ranks(cs) == p <==> cs == CodeOf(p) {
      CodeRecovered(cs);
    }
    CodeProbabilityIsMallows(q, CodeOf(p));
    NormaliserIsTotal(q, |p|);
  }

  lemma {:induction false} PowOne(e: nat)
    ensures PowReal(1.0, e) == 1.0
  {
    if e > 0 {
      PowOne(e - 1);
    }
  }

  /** With theta = 0 (q = 1) every ranking is equally likely. */
  lemma {:induction false} ThetaZeroIsUniform(p: seq<nat>)
    requires Permutation(p)
    ensures |AllRankings(|p|)| > 0 && InsertionCode(CodeOf(p))
    ensures CodeProbability(1.0, CodeOf(p)) == 1.0 / |AllRankings(|p|)| as real
  {
    RepeatedInsertionIsMallows(1.0, p);
    PowOne(Inversions(p));
    SumOfOnes(AllRankings(|p|));
  }

  lemma {:induction false} SumOfOnes(ps: seq<seq<nat>>)
    ensures Sum(MallowsWeights(1.0, ps)) == |ps| as real
  {
    PrefixOfOnes(ps, |ps|);
  }

  lemma {:induction false} PrefixOfOnes(ps: seq<seq<nat>>, k: nat)
    requires k <= |ps|
    ensures Prefix(MallowsWeights(1.0, ps), k) == k as real
  {
    if k > 0 {
      PrefixOfOnes(ps, k - 1);
      PowOne(Inversions(ps[k - 1]));
    }
  }

  // ---------- the method ----------

  /** The ranks invert the list: position t holds the element of rank t. */
  ghost predicate Inverse(list: seq<nat>, ranks: seq<nat>) {
    && |list| == |ranks|
    && (forall t | 0 <= t < |list| :: list[t] < |list| && ranks[list[t]] == t)
    && (forall r | 0 <= r < |list| :: ranks[r] < |list| && list[ranks[r]] == r)
  }

  lemma {:induction false} InverseExtends(list: seq<nat>, ranks: seq<nat>, pos: nat)
    requires Inverse(list, ranks) && pos <= |list|
    ensures Inverse(InsertAt(list, pos, |list|), Extend(ranks, pos))
  {
    var l, e := InsertAt(list, pos, |list|), Extend(ranks, pos);
    forall t | 0 <= t < |l| ensures l[t] < |l| && e[l[t]] == t {
    }
    forall r | 0 <= r < |l| ensures e[r] < |l| && l[e[r]] == r {
    }
  }

  lemma {:induction false} ListInvertsRanks(cs: seq<nat>)
    requires InsertionCode(cs)
    ensures Inverse(InsertedList(cs), Ranks(cs))
  {
    if |cs| > 0 {
      var m := |cs| - 1;
      ListInvertsRanks(cs[..m]);
      InverseExtends(InsertedList(cs[..m]), Ranks(cs[..m]), cs[m]);
    }
  }

  /** The insertion positions drawn from the word stream: two words for each element. */
  function DrawnCode(words: nat -> Word, p: nat, q: real, n: nat): (cs: seq<nat>)
    ensures |cs| == n && InsertionCode(cs)
  {
    if n == 0 then [] else DrawnCode(words, p, q, n - 1) + [PickAt(words, p + 2 * (n - 1), InsertionWeights(q, n - 1))]
  }

  method BuildWeights(q: real, i: nat) returns (weights: seq<real>, total: real)
    ensures weights == InsertionWeights(q, i) && total == Sum(weights)
  {
    weights, total := [], 0.0;
    ghost var all := InsertionWeights(q, i);
    for j := 0 to i + 1
      invariant weights == all[..j] && total == Prefix(all, j)
    {
      var w := PowReal(q, i - j);
      weights := weights + [w];
      total := total + w;
    }
  }

  method InvertList(list: seq<nat>, ghost ranks: seq<nat>) returns (pi: seq<nat>)
    requires Inverse(list, ranks)
    ensures pi == ranks
  {
    var a := new nat[|list|];
    for position := 0 to |list|
      invariant forall t | 0 <= t < position :: a[list[t]] == t
    {
      a[list[position]] := position;
    }
    forall r | 0 <= r < |list| ensures a[r] == ranks[r] {
      assert list[ranks[r]] == r;
    }
    pi := a[..];
  }

  method MallowsAssign(src: Source, n: nat, q: real) returns (pi: seq<nat>)
    modifies src
    ensures pi == Ranks(DrawnCode(src.words, old(src.pos), q, n)) && src.pos == old(src.pos) + 2 * n
    ensures Permutation(pi)
  {
    hide PickAt, InsertionWeights, InsertAt, Ranks, Permutation, InsertionCode;
    var list: seq<nat> := [];
    ghost var start := src.pos;
    for i := 0 to n
      invariant src.pos == start + 2 * i
      invariant list == InsertedList(DrawnCode(src.words, start, q, i))
    {
      var weights, total := BuildWeights(q, i);
      var pos := DrawIndex(src, weights, total);
      ghost var cs := DrawnCode(src.words, start, q, i + 1);
      assert cs[..i] == DrawnCode(src.words, start, q, i) && cs[i] == pos;
      list := InsertAt(list, pos, i);
    }
    ListInvertsRanks(DrawnCode(src.words, start, q, n));
    RanksPermutation(DrawnCode(src.words, start, q, n));
    pi := InvertList(list, Ranks(DrawnCode(src.words, start, q, n)));
  }
}
