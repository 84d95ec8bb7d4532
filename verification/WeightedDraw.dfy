/** Choosing an index by scanning cumulative weights until they pass x, as the odds assignment
    does twice (internal/racegen/generators/odds.go:345-354 and 394-403). */
module WeightedDraw {
  import opened Arithmetic
  import opened Basics
  import opened CertifiedDraws

  /** First index from k on whose cumulative weight exceeds x; the last index when none does. */
  function Scan(ws: seq<real>, x: real, k: nat): (i: nat)
    requires |ws| > 0 && k <= |ws|
    ensures i < |ws|
    decreases |ws| - k
  {
    if k == |ws| then |ws| - 1 else if x < Prefix(ws, k + 1) then k else Scan(ws, x, k + 1)
  }

  method PickIndex(ws: seq<real>, x: real) returns (idx: nat)
    requires |ws| > 0
    ensures idx == Scan(ws, x, 0)
  {
    idx := |ws| - 1;
    var acc := 0.0;
    var k := 0;
    while k < |ws|
      invariant k <= |ws| && idx == |ws| - 1
      invariant acc == Prefix(ws, k)
      invariant Scan(ws, x, k) == Scan(ws, x, 0)
    {
      acc := acc + ws[k];
      if x < acc {
        return k;
      }
      k := k + 1;
    }
  }

  /** The point of the total weight that the two words at p select. */
  function PointAt(words: nat -> Word, p: nat, ws: seq<real>): real {
    FractionAt(words, p) * Sum(ws)
  }

  lemma {:induction false} PointAtIs(words: nat -> Word, p: nat, ws: seq<real>, u: real, total: real)
    requires u == FractionAt(words, p) && total == Sum(ws)
    ensures u * total == PointAt(words, p, ws)
  {
    hide Sum, FractionAt;
  }

  /** The index picked by the two words at p. */
  function PickAt(words: nat -> Word, p: nat, ws: seq<real>): (i: nat)
    requires |ws| > 0
    ensures i < |ws|
  {
    Scan(ws, PointAt(words, p, ws), 0)
  }

  method DrawIndex(src: Source, ws: seq<real>, total: real) returns (idx: nat)
    requires |ws| > 0 && total == Sum(ws)
    modifies src
    ensures idx == PickAt(src.words, old(src.pos), ws) && src.pos == old(src.pos) + 2
  {
    hide Sum, Scan, FractionAt, PointAt;
    var u := CertifiedFloat(src);
    var x := u * total;
    PointAtIs(src.words, old(src.pos), ws, u, total);
    idx := PickIndex(ws, x);
  }

  /** The scan returns the index whose slice [Prefix(i), Prefix(i+1)) holds x, so its ideal
      probability is the weight's share of the total. */
  lemma {:induction false} ScanFindsSlice(ws: seq<real>, x: real, k: nat, i: nat)
    requires AllNonnegative(ws) && k <= i < |ws|
    requires Prefix(ws, k) <= x < Sum(ws)
    ensures Scan(ws, x, k) == i <==> Prefix(ws, i) <= x < Prefix(ws, i + 1)
    decreases |ws| - k
  {
    if x < Prefix(ws, k + 1) {
      if i > k {
        PrefixMonotone(ws, k + 1, i);
      }
    } else if k == i {
      ScanStays(ws, x, k + 1);
    } else {
      ScanFindsSlice(ws, x, k + 1, i);
    }
  }

  lemma {:induction false} ScanStays(ws: seq<real>, x: real, k: nat)
    requires |ws| > 0 && k <= |ws| && x < Sum(ws)
    requires Prefix(ws, k) <= x
    ensures Scan(ws, x, k) >= k
    decreases |ws| - k
  {
    if k < |ws| && x >= Prefix(ws, k + 1) {
      ScanStays(ws, x, k + 1);
    }
  }

  function Ceil(r: real): int {
    -((-r).Floor)
  }

  lemma {:induction false} CeilIs(r: real, k: int)
    ensures k as real >= r <==> k >= Ceil(r)
    ensures r <= Ceil(r) as real < r + 1.0
  {
  }

  /** Comparing a scaled fraction of the total with a cumulative weight, without division. */
  lemma {:induction false} FractionCompare(k: nat, total: real, x: real, part: real)
    requires total > 0.0 && x * FRACTIONS as real == k as real * total
    ensures x >= part <==> k as real >= part * FRACTIONS as real / total
    ensures x > part <==> k as real > part * FRACTIONS as real / total
  {
    var n := FRACTIONS as real;
    var d := k as real - part * n / total;
    assert d * total == (x - part) * n;
    if d > 0.0 {
      assert d * total > 0.0;
    } else if d < 0.0 {
      assert (-d) * total > 0.0;
    }
  }

  lemma {:induction false} ScaledFraction(k: nat, total: real) returns (x: real)
    requires k < FRACTIONS && total > 0.0
    ensures x == Fraction(k) * total && x * FRACTIONS as real == k as real * total
    ensures 0.0 <= x < total
  {
    x := Fraction(k) * total;
    assert Fraction(k) * total * FRACTIONS as real == k as real * total;
    FractionCompare(k, total, x, 0.0);
    FractionCompare(k, total, x, total);
    assert total * FRACTIONS as real / total == FRACTIONS as real;
  }

  function Point(ws: seq<real>, k: nat): real {
    Fraction(k) * Sum(ws)
  }

  predicate Picks(ws: seq<real>, k: nat, i: nat)
    requires |ws| > 0
  {
    Scan(ws, Point(ws, k), 0) == i
  }

  /** The 53-bit fractions that pick index i. */
  function FractionsPicking(ws: seq<real>, i: nat): set<int>
    requires |ws| > 0
  {
    set k | 0 <= k < FRACTIONS && Picks(ws, k, i)
  }

  /** The cumulative weight of the first i indices, the total being 2^53. */
  function Level(ws: seq<real>, i: nat): real
    requires i <= |ws| && Sum(ws) > 0.0
  {
    Prefix(ws, i) * FRACTIONS as real / Sum(ws)
  }

  /** The part of the 2^53 fractions that the weight of index i is of the total. */
  function FairPart(ws: seq<real>, i: nat): real
    requires i < |ws| && Sum(ws) > 0.0
  {
    ws[i] * FRACTIONS as real / Sum(ws)
  }

  /** The least fraction at or beyond the cumulative weight of the first i indices. */
  function Threshold(ws: seq<real>, i: nat): int
    requires i <= |ws| && Sum(ws) > 0.0
  {
    Ceil(Level(ws, i))
  }

  lemma {:induction false} PointBeyond(ws: seq<real>, i: nat, k: nat)
    requires i <= |ws| && k < FRACTIONS && Sum(ws) > 0.0
    ensures 0.0 <= Point(ws, k) < Sum(ws)
    ensures Point(ws, k) >= Prefix(ws, i) <==> k >= Threshold(ws, i)
  {
    var x := ScaledFraction(k, Sum(ws));
    FractionCompare(k, Sum(ws), x, Prefix(ws, i));
    CeilIs(Level(ws, i), k);
  }

  lemma {:induction false} PickBounds(ws: seq<real>, i: nat, k: nat)
    requires AllNonnegative(ws) && i < |ws| && k < FRACTIONS && Sum(ws) > 0.0
    ensures Picks(ws, k, i) <==> Threshold(ws, i) <= k < Threshold(ws, i + 1)
  {
    hide Point, Threshold;
    PointBeyond(ws, i, k);
    PointBeyond(ws, i + 1, k);
    ScanFindsSlice(ws, Point(ws, k), 0, i);
  }

  lemma {:induction false} PickInterval(ws: seq<real>, i: nat)
    requires AllNonnegative(ws) && i < |ws| && Sum(ws) > 0.0
    requires 0 <= Threshold(ws, i) && Threshold(ws, i + 1) <= FRACTIONS
    ensures FractionsPicking(ws, i) == IntRange(Threshold(ws, i), Threshold(ws, i + 1))
  {
    hide Picks, Threshold;
    forall k | 0 <= k < FRACTIONS
      ensures Picks(ws, k, i) <==> Threshold(ws, i) <= k < Threshold(ws, i + 1)
    {
      PickBounds(ws, i, k);
    }
  }

  /** Out of the 2^53 equally likely fractions, index i is picked by its exact share up to one. */
  lemma {:induction false} PickFrequency(ws: seq<real>, i: nat)
    requires AllNonnegative(ws) && i < |ws| && Sum(ws) > 0.0
    ensures FairPart(ws, i) - 1.0 < |FractionsPicking(ws, i)| as real < FairPart(ws, i) + 1.0
  {
    hide Prefix, Level, FairPart, Picks;
    CumulativeShares(ws, i);
    CeilIs(Level(ws, i), 0);
    CeilIs(Level(ws, i + 1), 0);
    CeilIs(Level(ws, i + 1), FRACTIONS);
    PickInterval(ws, i);
  }

  lemma {:induction false} CumulativeShares(ws: seq<real>, i: nat)
    requires AllNonnegative(ws) && i < |ws| && Sum(ws) > 0.0
    ensures 0.0 == Level(ws, 0) <= Level(ws, i) <= Level(ws, i + 1) <= FRACTIONS as real
    ensures Level(ws, i + 1) - Level(ws, i) == FairPart(ws, i)
  {
    hide AllNonnegative;
    var total, n := Sum(ws), FRACTIONS as real;
    PrefixNonnegative(ws, i);
    PrefixMonotone(ws, i, i + 1);
    PrefixMonotone(ws, i + 1, |ws|);
    assert Prefix(ws, i + 1) == Prefix(ws, i) + ws[i];
    ShareBetween(Prefix(ws, i), n, total);
    ShareBetween(Prefix(ws, i + 1), n, total);
    SplitShare(Prefix(ws, i), ws[i], n, total);
    ShareBetween(ws[i], n, total);
  }
}
