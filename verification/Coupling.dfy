/** The assignment of WIN odds to runners (coupleWinOdds of internal/racegen/generators/odds.go). */
module Coupling {
  import opened Basics
  import opened CertifiedDraws
  import opened Ordering
  import opened OddsVector
  import FinishPool
  import Mallows
  import PlackettLuce

  /** The model that couples finish ranks and odds ranks; q is exp(-theta). */
  datatype Model = Model(usePL: bool, weights: seq<real>, q: real)

  predicate UsesWeights(m: Model, n: nat) {
    m.usePL && |m.weights| == n
  }

  lemma {:induction false} EveryRankHasWeight(w: seq<real>)
    ensures PlackettLuce.Within(w, Iota(|w|))
  {
  }

  /** The odds rank of each finish rank, as drawn from position p of the word stream. */
  function RanksDrawn(m: Model, words: nat -> Word, p: nat, n: nat): seq<nat> {
    if UsesWeights(m, n) then
      EveryRankHasWeight(m.weights);
      PlackettLuce.DrawnOrder(words, p, m.weights, Iota(n))
    else Mallows.Ranks(Mallows.DrawnCode(words, p, m.q, n))
  }

  /** How many words drawing the ranks takes. */
  function WordsDrawn(m: Model, n: nat): nat
    requires n > 0
  {
    if UsesWeights(m, n) then 2 * (n - 1) else 2 * n
  }

  lemma {:induction false} RanksDrawnPermute(m: Model, words: nat -> Word, p: nat, n: nat)
    ensures |RanksDrawn(m, words, p, n)| == n && Permutation(RanksDrawn(m, words, p, n))
  {
    hide Permutation, RanksDrawn;
    ModelUsed(m, words, p, n);
    if UsesWeights(m, n) {
      PlackettLuce.DrawnOrderIsPermutation(words, p, m.weights, n);
    } else {
      Mallows.RanksPermutation(Mallows.DrawnCode(words, p, m.q, n));
    }
  }

  /** One entry per runner, each naming a slot. */
  predicate Usable(finishOrder: seq<int>, n: nat) {
    |finishOrder| == n && forall r | 0 <= r < n :: 1 <= finishOrder[r] <= n
  }

  function SlotsOf(finishOrder: seq<int>, n: nat): (r: seq<nat>)
    requires Usable(finishOrder, n)
    ensures |r| == n && forall i | 0 <= i < n :: r[i] < n
  {
    seq(n, i requires 0 <= i < n => finishOrder[i] - 1)
  }

  /** The slots after r finishers have received their odds; the others still hold zero. */
  function Scattered(slots: seq<nat>, sorted: seq<real>, pi: seq<nat>, r: nat): (out: seq<real>)
    requires |slots| == |pi| == |sorted| && r <= |slots|
    requires forall i | 0 <= i < |slots| :: slots[i] < |slots| && pi[i] < |slots|
    ensures |out| == |slots|
  {
    if r == 0 then seq(|slots|, i => 0.0)
    else Scattered(slots, sorted, pi, r - 1)[slots[r - 1] := sorted[pi[r - 1]]]
  }

  /** The odds per slot: scattered along the finish order, or a shuffle when that is unusable. A finish
      order of the right length is found unusable only after the ranks have been drawn. */
  ghost function Coupled(m: Model, words: nat -> Word, p: nat, finishOrder: seq<int>,
                         values: seq<real>): (out: seq<real>)
    requires Fair(words) && 0 < |values| < WORDS
    ensures |out| == |values|
  {
    var n := |values|;
    RanksDrawnPermute(m, words, p, n);
    if Usable(finishOrder, n) then
      Scattered(SlotsOf(finishOrder, n), SortedValues(values), RanksDrawn(m, words, p, n), n)
    else
      var from := if |finishOrder| == n then p + WordsDrawn(m, n) else p;
      FisherYates(values, UpcomingSwaps(words, from, n).0)
  }

  /** Where the word stream stands once the odds are assigned. */
  ghost function CoupledEnd(m: Model, words: nat -> Word, p: nat, finishOrder: seq<int>, n: nat): nat
    requires Fair(words) && 0 < n < WORDS
  {
    if |finishOrder| != n then UpcomingSwaps(words, p, n).1
    else if Usable(finishOrder, n) then p + WordsDrawn(m, n)
    else UpcomingSwaps(words, p + WordsDrawn(m, n), n).1
  }

  method DrawRanks(src: Source, m: Model, n: nat) returns (pi: seq<nat>)
    requires n > 0
    modifies src
    ensures pi == RanksDrawn(m, src.words, old(src.pos), n) && src.pos == old(src.pos) + WordsDrawn(m, n)
  {
    if UsesWeights(m, n) {
      pi := PlackettLuce.PlackettLuceAssign(src, m.weights);
    } else {
      pi := Mallows.MallowsAssign(src, n, m.q);
    }
  }

  method Shuffled(src: Source, values: seq<real>) returns (out: seq<real>)
    requires |values| < WORDS && Fair(src.words)
    modifies src
    ensures out == FisherYates(values, UpcomingSwaps(src.words, old(src.pos), |values|).0)
    ensures src.pos == UpcomingSwaps(src.words, old(src.pos), |values|).1
  {
    hide *;
    var cp := new real[|values|](i requires 0 <= i < |values| => values[i]);
    assert cp[..] == values;
    CertifiedShuffle(src, cp);
    out := cp[..];
  }

  method CoupleWinOdds(src: Source, m: Model, finishOrder: seq<int>, values: seq<real>) returns (out: seq<real>)
    requires Fair(src.words) && 0 < |values| < WORDS
    modifies src
    ensures out == Coupled(m, src.words, old(src.pos), finishOrder, values)
    ensures src.pos == CoupledEnd(m, src.words, old(src.pos), finishOrder, |values|)
  {
    hide RanksDrawn, WordsDrawn, Fair, SortedValues, FisherYates, UpcomingSwaps, Permutation, Scattered;
    var n := |values|;
    var sorted := SortedValues(values);
    if |finishOrder| != n {
      out := Shuffled(src, values);
      return;
    }
    RanksDrawnPermute(m, src.words, src.pos, n);
    var pi := DrawRanks(src, m, n);
    RanksInRange(pi);
    var slots := new real[n](i => 0.0);
    NoneScattered(Placed(finishOrder, 0, n), sorted, pi);
    assert slots[..] == seq(n, i => 0.0);
    for r := 0 to n
      invariant src.pos == old(src.pos) + WordsDrawn(m, n)
      invariant forall i | 0 <= i < r :: 1 <= finishOrder[i] <= n
      invariant slots[..] == Scattered(Placed(finishOrder, r, n), sorted, pi, r)
    {
      var slot := finishOrder[r] - 1;
      if slot < 0 || slot >= n {
        out := Shuffled(src, values);
        return;
      }
      ScatterNext(finishOrder, sorted, pi, r);
      slots[slot] := sorted[pi[r]];
    }
    out := slots[..];
    assert Placed(finishOrder, n, n) == SlotsOf(finishOrder, n);
  }

  lemma {:induction false} NoneScattered(slots: seq<nat>, sorted: seq<real>, pi: seq<nat>)
    requires |slots| == |pi| == |sorted| && forall i | 0 <= i < |slots| :: slots[i] < |slots| && pi[i] < |slots|
    ensures Scattered(slots, sorted, pi, 0) == seq(|slots|, i => 0.0)
  {
  }

  lemma {:induction false} RanksInRange(pi: seq<nat>)
    requires Permutation(pi)
    ensures forall i | 0 <= i < |pi| :: pi[i] < |pi|
  {
  }

  /** The slots of the first r finishers; the others are not looked at yet. */
  function Placed(finishOrder: seq<int>, r: nat, n: nat): (s: seq<nat>)
    requires r <= n == |finishOrder| && forall i | 0 <= i < r :: 1 <= finishOrder[i] <= n
    ensures |s| == n && forall i | 0 <= i < n :: s[i] < n
  {
    seq(n, i requires 0 <= i < n => if i < r then finishOrder[i] - 1 else 0)
  }

  lemma {:induction false} ScatterAgree(a: seq<nat>, b: seq<nat>, sorted: seq<real>, pi: seq<nat>, r: nat)
    requires |a| == |b| == |pi| == |sorted| && r <= |a| && a[..r] == b[..r]
    requires forall i | 0 <= i < |a| :: a[i] < |a| && b[i] < |a| && pi[i] < |a|
    ensures Scattered(a, sorted, pi, r) == Scattered(b, sorted, pi, r)
  {
    if r > 0 {
      assert a[..r - 1] == a[..r][..r - 1] && b[..r - 1] == b[..r][..r - 1];
      assert a[r - 1] == a[..r][r - 1] && b[r - 1] == b[..r][r - 1];
      ScatterAgree(a, b, sorted, pi, r - 1);
    }
  }

  lemma {:induction false} ScatterNext(finishOrder: seq<int>, sorted: seq<real>, pi: seq<nat>, r: nat)
    requires |finishOrder| == |pi| == |sorted| && r < |pi|
    requires forall i | 0 <= i <= r :: 1 <= finishOrder[i] <= |pi|
    requires forall i | 0 <= i < |pi| :: pi[i] < |pi|
    ensures var n := |pi|;
            Scattered(Placed(finishOrder, r + 1, n), sorted, pi, r + 1) ==
            Scattered(Placed(finishOrder, r, n), sorted, pi, r)[finishOrder[r] - 1 := sorted[pi[r]]]
  {
    var n := |pi|;
    ScatterAgree(Placed(finishOrder, r + 1, n), Placed(finishOrder, r, n), sorted, pi, r);
  }

  // ---------- what the assignment keeps ----------

  /** In slots that are all different every finisher finds its odds; a slot nobody names keeps zero. */
  lemma {:induction false} ScatterPlaces(slots: seq<nat>, sorted: seq<real>, pi: seq<nat>, r: nat)
    requires |slots| == |pi| == |sorted| && r <= |slots|
    requires forall i | 0 <= i < |slots| :: slots[i] < |slots| && pi[i] < |slots|
    ensures Distinct(slots) ==> forall i | 0 <= i < r :: Scattered(slots, sorted, pi, r)[slots[i]] == sorted[pi[i]]
    ensures forall k: nat | k < |slots| && (forall i | 0 <= i < r :: slots[i] != k) ::
        Scattered(slots, sorted, pi, r)[k] == 0.0
  {
    if r > 0 {
      ScatterPlaces(slots, sorted, pi, r - 1);
    }
  }

  lemma {:induction false} ScatterRearranges(slots: seq<nat>, sorted: seq<real>, pi: seq<nat>)
    requires |slots| == |pi| == |sorted| && Permutation(slots) && Permutation(pi)
    ensures multiset(Scattered(slots, sorted, pi, |slots|)) == multiset(sorted)
  {
    hide Scattered;
    var n := |slots|;
    ScatterPlaces(slots, sorted, pi, n);
    var out := Scattered(slots, sorted, pi, n);
    PermutationGathers(out, slots);
    PermutationGathers(sorted, pi);
    assert Gather(out, slots) == Gather(sorted, pi);
  }

  lemma {:induction false} ScatterLoses(slots: seq<nat>, sorted: seq<real>, pi: seq<nat>, values: seq<real>)
    requires |slots| == |pi| == |sorted| && !Distinct(slots)
    requires forall i | 0 <= i < |slots| :: slots[i] < |slots| && pi[i] < |slots|
    requires AllPositive(values)
    ensures multiset(Scattered(slots, sorted, pi, |slots|)) != multiset(values)
  {
    hide Scattered, Distinct;
    CoversExactlyWhenDistinct(slots);
    var k: nat :| k < |slots| && k !in slots;
    ScatterPlaces(slots, sorted, pi, |slots|);
    var out := Scattered(slots, sorted, pi, |slots|);
    assert out[k] in multiset(out);
    assert 0.0 !in values;
  }

  /** The odds are only rearranged, never lost, exactly when the finish order is unusable or names
      every slot once: a repeated runner within range is not detected. */
  lemma {:induction false} RearrangedExactlyWhenNoRunnerRepeats(m: Model, words: nat -> Word, p: nat,
      finishOrder: seq<int>, values: seq<real>)
    requires Fair(words) && 0 < |values| < WORDS && AllPositive(values)
    ensures multiset(Coupled(m, words, p, finishOrder, values)) == multiset(values) <==>
              !Usable(finishOrder, |values|) || Distinct(finishOrder)
  {
    hide RanksDrawn, Fair, SortedValues, FisherYates, UpcomingSwaps, Scattered, Permutation, Distinct;
    var n := |values|;
    var pi := RanksDrawn(m, words, p, n);
    RanksDrawnPermute(m, words, p, n);
    RanksInRange(pi);
    SortedValuesSort(values);
    if Usable(finishOrder, n) {
      SlotsDistinct(finishOrder, n);
      if Distinct(finishOrder) {
        ScatterRearranges(SlotsOf(finishOrder, n), SortedValues(values), pi);
      } else {
        ScatterLoses(SlotsOf(finishOrder, n), SortedValues(values), pi, values);
      }
    } else {
      var from := if |finishOrder| == n then p + WordsDrawn(m, n) else p;
      FisherYatesPermutes(values, UpcomingSwaps(words, from, n).0);
    }
  }

  /** A finish order that names runner 1 twice: runner 2 is left without odds. */
  lemma {:induction false} RepeatedRunnerLosesOdds(m: Model, words: nat -> Word, p: nat)
    requires Fair(words)
    ensures var out := Coupled(m, words, p, [1, 1], [2.0, 3.0]);
            |out| == 2 && out[1] == 0.0 && multiset(out) != multiset{2.0, 3.0}
  {
    hide RanksDrawn, Fair, SortedValues, Scattered;
    var fo: seq<int>, values := [1, 1], [2.0, 3.0];
    RearrangedExactlyWhenNoRunnerRepeats(m, words, p, fo, values);
    assert fo[0] == fo[1];
    assert SlotsOf(fo, 2) == [0, 0];
    RanksDrawnPermute(m, words, p, 2);
    ScatterPlaces(SlotsOf(fo, 2), SortedValues(values), RanksDrawn(m, words, p, 2), 2);
  }

  lemma {:induction false} SlotsDistinct(finishOrder: seq<int>, n: nat)
    requires Usable(finishOrder, n)
    ensures Distinct(SlotsOf(finishOrder, n)) <==> Distinct(finishOrder)
    ensures Distinct(finishOrder) ==> Permutation(SlotsOf(finishOrder, n))
  {
    var slots := SlotsOf(finishOrder, n);
    if Distinct(slots) {
      forall i, j | 0 <= i < j < n ensures finishOrder[i] != finishOrder[j] {
        assert slots[i] != slots[j];
      }
    }
  }

  /** A finish order from the pool, or an unusable one, leaves the bookmaker's margin as it was. */
  lemma {:induction false} MarginKept(m: Model, words: nat -> Word, p: nat, finishOrder: seq<int>, values: seq<real>)
    requires Fair(words) && 0 < |values| < WORDS && AllPositive(values)
    requires FinishPool.FinishOrder(finishOrder, |values|) || !Usable(finishOrder, |values|)
    ensures AllPositive(Coupled(m, words, p, finishOrder, values))
    ensures Overround(Coupled(m, words, p, finishOrder, values)) == Overround(values)
  {
    hide Coupled, Fair, Overround;
    RearrangedExactlyWhenNoRunnerRepeats(m, words, p, finishOrder, values);
    OverroundRearranged(values, Coupled(m, words, p, finishOrder, values));
  }

  /** Whoever finishes r-th receives the pi[r]-th lowest odds. */
  lemma {:induction false} FinisherGetsDrawnRank(m: Model, words: nat -> Word, p: nat, finishOrder: seq<int>,
                                                 values: seq<real>, r: nat)
    requires Fair(words) && 0 < |values| < WORDS && r < |values| && FinishPool.FinishOrder(finishOrder, |values|)
    ensures |RanksDrawn(m, words, p, |values|)| == |values| && RanksDrawn(m, words, p, |values|)[r] < |values|
    ensures Coupled(m, words, p, finishOrder, values)[finishOrder[r] - 1] ==
            SortedValues(values)[RanksDrawn(m, words, p, |values|)[r]]
  {
    hide RanksDrawn, Fair, SortedValues, Scattered;
    var n := |values|;
    RanksDrawnPermute(m, words, p, n);
    SlotsDistinct(finishOrder, n);
    ScatterPlaces(SlotsOf(finishOrder, n), SortedValues(values), RanksDrawn(m, words, p, n), n);
  }

  /** The Plackett-Luce model is used exactly when it is switched on with one weight for each runner, else Mallows. */
  lemma {:induction false} ModelUsed(m: Model, words: nat -> Word, p: nat, n: nat)
    ensures m.usePL && |m.weights| == n ==>
              && PlackettLuce.Within(m.weights, Iota(n))
              && RanksDrawn(m, words, p, n) == PlackettLuce.DrawnOrder(words, p, m.weights, Iota(n))
              && (n > 0 ==> WordsDrawn(m, n) == 2 * n - 2)
    ensures !m.usePL || |m.weights| != n ==>
              && RanksDrawn(m, words, p, n) == Mallows.Ranks(Mallows.DrawnCode(words, p, m.q, n))
              && (n > 0 ==> WordsDrawn(m, n) == 2 * n)
  {
    EveryRankHasWeight(m.weights);
  }
}
