/** The finish order of a pool video (parsePool of internal/racegen/data/embed.go): sparse position
    labels are sorted and closed up to dense positions. */
module FinishPool {
  import opened Basics
  import opened Options
  import opened Ordering

  /** A position label as text and the runner recorded under it. */
  datatype Label = Label(text: string, runner: int)

  datatype Placed = Placed(pos: int, runner: int)

  /** Every runner of 1 .. n finishes exactly once. */
  ghost predicate FinishOrder(order: seq<int>, n: nat) {
    |order| == n && Distinct(order) && forall i | 0 <= i < n :: 1 <= order[i] <= n
  }

  predicate Readable(parse: string -> Option<int>, labels: seq<Label>) {
    forall i | 0 <= i < |labels| :: parse(labels[i].text).Some?
  }

  function Pairs(parse: string -> Option<int>, labels: seq<Label>): (r: seq<Placed>)
    requires Readable(parse, labels)
    ensures |r| == |labels|
  {
    seq(|labels|, i requires 0 <= i < |labels| => Placed(parse(labels[i].text).value, labels[i].runner))
  }

  function Keys(pairs: seq<Placed>): (r: seq<real>)
    ensures |r| == |pairs|
  {
    seq(|pairs|, i requires 0 <= i < |pairs| => pairs[i].pos as real)
  }

  function SortedPairs(pairs: seq<Placed>): (r: seq<Placed>)
    ensures |r| == |pairs|
  {
    Gather(pairs, SlotOrder(Keys(pairs)))
  }

  function Runners(pairs: seq<Placed>): (r: seq<int>)
    ensures |r| == |pairs|
  {
    seq(|pairs|, i requires 0 <= i < |pairs| => pairs[i].runner)
  }

  lemma {:induction false} SortedPairsSort(pairs: seq<Placed>)
    ensures multiset(SortedPairs(pairs)) == multiset(pairs)
    ensures forall i, j | 0 <= i < j < |pairs| :: SortedPairs(pairs)[i].pos <= SortedPairs(pairs)[j].pos
  {
    hide SlotOrder;
    SlotOrderPermutes(Keys(pairs));
    PermutationGathers(pairs, SlotOrder(Keys(pairs)));
    var order, sorted := SlotOrder(Keys(pairs)), SortedPairs(pairs);
    forall i, j | 0 <= i < j < |pairs| ensures sorted[i].pos <= sorted[j].pos {
      assert Before(Keys(pairs), order[i], order[j]);
    }
  }

  /** An entry that does not make the program stop: n labels, all numbers, of runners 1 .. n without repeats. */
  ghost predicate Wellformed(parse: string -> Option<int>, labels: seq<Label>, n: nat) {
    && |labels| == n && Readable(parse, labels)
    && (forall i | 0 <= i < n :: 1 <= labels[i].runner <= n)
    && forall i, j | 0 <= i < j < n :: labels[i].runner != labels[j].runner
  }

  /** `labels` lists the entry's positions in the order its map happens to be iterated in; None stands
      for a panic. */
  method ParseEntry(parse: string -> Option<int>, labels: seq<Label>, numComp: nat) returns (order: Option<seq<int>>)
    ensures order.Some? <==> Wellformed(parse, labels, numComp)
    ensures order.Some? ==> order.value == Runners(SortedPairs(Pairs(parse, labels)))
    ensures order.Some? ==> FinishOrder(order.value, numComp)
  {
    hide SortedPairs, Distinct;
    if |labels| != numComp {
      return None;
    }
    var pairs: seq<Placed> := [];
    for k := 0 to |labels|
      invariant |pairs| == k && forall i | 0 <= i < k :: parse(labels[i].text) == Some(pairs[i].pos)
      invariant forall i | 0 <= i < k :: pairs[i].runner == labels[i].runner && 1 <= labels[i].runner <= numComp
    {
      var pos := parse(labels[k].text);
      if pos.None? || labels[k].runner < 1 || labels[k].runner > numComp {
        return None;
      }
      pairs := pairs + [Placed(pos.value, labels[k].runner)];
    }
    assert pairs == Pairs(parse, labels);
    RepeatsCarryOver(pairs);
    SortedRunnersInRange(pairs, numComp);
    RunnersOfPairs(parse, labels);
    order := CloseUp(SortedPairs(pairs));
  }

  /** Gives the sorted runners dense positions, unless one appears twice. */
  method CloseUp(sorted: seq<Placed>) returns (order: Option<seq<int>>)
    ensures order.Some? <==> Distinct(Runners(sorted))
    ensures order.Some? ==> order.value == Runners(sorted)
  {
    var dense: seq<int> := [];
    var seen: set<int> := {};
    for k := 0 to |sorted|
      invariant dense == Runners(sorted)[..k] && Distinct(dense)
      invariant forall x :: x in seen <==> x in dense
    {
      var x := Runners(sorted)[k];
      if x in seen {
        var i :| 0 <= i < k && dense[i] == x;
        assert Runners(sorted)[i] == Runners(sorted)[k];
        return None;
      }
      dense := dense + [x];
      seen := seen + {x};
    }
    order := Some(dense);
  }

  lemma {:induction false} RunnersOfPairs(parse: string -> Option<int>, labels: seq<Label>)
    requires Readable(parse, labels)
    ensures Distinct(Runners(Pairs(parse, labels))) <==>
              forall i, j | 0 <= i < j < |labels| :: labels[i].runner != labels[j].runner
  {
    var r := Runners(Pairs(parse, labels));
    if Distinct(r) {
      forall i, j | 0 <= i < j < |labels| ensures labels[i].runner != labels[j].runner {
        assert r[i] != r[j];
      }
    }
  }

  lemma {:induction false} RunnersRearranged(p: seq<Placed>, q: seq<Placed>)
    requires multiset(p) == multiset(q)
    ensures multiset(Runners(p)) == multiset(Runners(q))
    decreases |p|
  {
    if |p| == 0 {
      assert |multiset(q)| == |q| && |multiset(p)| == 0;
    } else {
      assert p[0] in multiset(q);
      var j :| 0 <= j < |q| && q[j] == p[0];
      WithoutMultiset(p, 0);
      WithoutMultiset(q, j);
      CancelOne(multiset(Without(p, 0)), multiset(Without(q, j)), p[0]);
      RunnersRearranged(Without(p, 0), Without(q, j));
      assert Runners(Without(p, 0)) == Without(Runners(p), 0);
      assert Runners(Without(q, j)) == Without(Runners(q), j);
      WithoutMultiset(Runners(p), 0);
      WithoutMultiset(Runners(q), j);
    }
  }

  /** Runners repeat after sorting exactly when they repeat before. */
  lemma {:induction false} RepeatsCarryOver(pairs: seq<Placed>)
    ensures Distinct(Runners(SortedPairs(pairs))) <==> Distinct(Runners(pairs))
  {
    hide SortedPairs, Distinct;
    SortedPairsSort(pairs);
    RunnersRearranged(SortedPairs(pairs), pairs);
    if Distinct(Runners(pairs)) {
      RearrangedDistinct(Runners(pairs), Runners(SortedPairs(pairs)));
    }
    if Distinct(Runners(SortedPairs(pairs))) {
      RearrangedDistinct(Runners(SortedPairs(pairs)), Runners(pairs));
    }
  }

  lemma {:induction false} SortedRunnersInRange(pairs: seq<Placed>, n: nat)
    requires forall i | 0 <= i < |pairs| :: 1 <= pairs[i].runner <= n
    ensures forall i | 0 <= i < |pairs| :: 1 <= SortedPairs(pairs)[i].runner <= n
  {
    hide SortedPairs;
    SortedPairsSort(pairs);
    forall i | 0 <= i < |pairs| ensures 1 <= SortedPairs(pairs)[i].runner <= n {
      assert SortedPairs(pairs)[i] in multiset(pairs);
    }
  }

  // ---------- what the order means ----------

  /** Closing up the labels keeps the order across the line: a runner under a lower label comes first. */
  lemma {:induction false} LowerLabelFinishesFirst(parse: string -> Option<int>, labels: seq<Label>, n: nat,
                                                   a: nat, b: nat, i: nat, j: nat)
    requires Wellformed(parse, labels, n) && a < n && b < n && i < n && j < n
    requires Pairs(parse, labels)[a].pos < Pairs(parse, labels)[b].pos
    requires var order := Runners(SortedPairs(Pairs(parse, labels)));
             order[i] == labels[a].runner && order[j] == labels[b].runner
    ensures i < j
  {
    hide SortedPairs;
    var pairs := Pairs(parse, labels);
    var sorted := SortedPairs(pairs);
    SortedPairsSort(pairs);
    assert sorted[i] in multiset(pairs) && sorted[j] in multiset(pairs);
    var c :| 0 <= c < n && pairs[c] == sorted[i];
    var d :| 0 <= d < n && pairs[d] == sorted[j];
    assert labels[c].runner == labels[a].runner && labels[d].runner == labels[b].runner;
  }

  ghost predicate StrictlyAscending(p: seq<Placed>) {
    forall i, j | 0 <= i < j < |p| :: p[i].pos < p[j].pos
  }

  lemma {:induction false} AscendingUnique(p: seq<Placed>, q: seq<Placed>)
    requires StrictlyAscending(p) && StrictlyAscending(q) && multiset(p) == multiset(q)
    ensures p == q
    decreases |p|
  {
    SameLength(p, q);
    if |p| > 0 {
      var m := |p| - 1;
      SameLast(p, q, m);
      InitMultiset(p, m);
      InitMultiset(q, m);
      CancelOne(multiset(p[..m]), multiset(q[..m]), p[m]);
      AscendingUnique(p[..m], q[..m]);
      assert p == p[..m] + [p[m]] && q == q[..m] + [q[m]];
    }
  }

  lemma {:induction false} SameLength(p: seq<Placed>, q: seq<Placed>)
    requires multiset(p) == multiset(q)
    ensures |p| == |q|
  {
    assert |multiset(p)| == |p| && |multiset(q)| == |q|;
  }

  lemma {:induction false} InitMultiset(p: seq<Placed>, m: nat)
    requires |p| == m + 1
    ensures multiset(p) == multiset(p[..m]) + multiset{p[m]}
  {
    assert p == p[..m] + [p[m]];
  }

  /** Both end with the greatest position. */
  lemma {:induction false} SameLast(p: seq<Placed>, q: seq<Placed>, m: nat)
    requires StrictlyAscending(p) && StrictlyAscending(q) && multiset(p) == multiset(q) && |p| == |q| == m + 1
    ensures p[m] == q[m]
  {
    var j := PlaceIn(p, q, m);
    var i := PlaceIn(q, p, m);
    assert p[m].pos <= q[m].pos <= p[m].pos;
  }

  lemma {:induction false} PlaceIn(p: seq<Placed>, q: seq<Placed>, k: nat) returns (j: nat)
    requires multiset(p) == multiset(q) && k < |p|
    ensures j < |q| && q[j] == p[k]
  {
    assert p[k] in multiset(q);
    j :| 0 <= j < |q| && q[j] == p[k];
  }

  lemma {:induction false} PairsRearranged(parse: string -> Option<int>, p: seq<Label>, q: seq<Label>)
    requires Readable(parse, p) && Readable(parse, q) && multiset(p) == multiset(q)
    ensures multiset(Pairs(parse, p)) == multiset(Pairs(parse, q))
    decreases |p|
  {
    if |p| == 0 {
      assert |multiset(q)| == |q| && |multiset(p)| == 0;
    } else {
      assert p[0] in multiset(q);
      var j :| 0 <= j < |q| && q[j] == p[0];
      WithoutMultiset(p, 0);
      WithoutMultiset(q, j);
      CancelOne(multiset(Without(p, 0)), multiset(Without(q, j)), p[0]);
      PairsRearranged(parse, Without(p, 0), Without(q, j));
      assert Pairs(parse, Without(p, 0)) == Without(Pairs(parse, p), 0);
      assert Pairs(parse, Without(q, j)) == Without(Pairs(parse, q), j);
      WithoutMultiset(Pairs(parse, p), 0);
      WithoutMultiset(Pairs(parse, q), j);
    }
  }

  /** With different position numbers the finish order does not depend on the map's iteration order. */
  lemma {:induction false} IterationOrderIrrelevant(parse: string -> Option<int>, p: seq<Label>, q: seq<Label>)
    requires Readable(parse, p) && Readable(parse, q) && multiset(p) == multiset(q)
    requires forall i, j | 0 <= i < j < |p| :: Pairs(parse, p)[i].pos != Pairs(parse, p)[j].pos
    ensures Runners(SortedPairs(Pairs(parse, p))) == Runners(SortedPairs(Pairs(parse, q)))
  {
    hide SortedPairs;
    PairsRearranged(parse, p, q);
    SortedPairsSort(Pairs(parse, p));
    SortedPairsSort(Pairs(parse, q));
    StrictWhenDifferent(Pairs(parse, p), SortedPairs(Pairs(parse, p)));
    StrictWhenDifferent(Pairs(parse, p), SortedPairs(Pairs(parse, q)));
    AscendingUnique(SortedPairs(Pairs(parse, p)), SortedPairs(Pairs(parse, q)));
  }

  lemma {:induction false} StrictWhenDifferent(pairs: seq<Placed>, sorted: seq<Placed>)
    requires multiset(sorted) == multiset(pairs)
    requires forall i, j | 0 <= i < j < |sorted| :: sorted[i].pos <= sorted[j].pos
    requires forall i, j | 0 <= i < j < |pairs| :: pairs[i].pos != pairs[j].pos
    ensures StrictlyAscending(sorted)
  {
    assert Distinct(pairs);
    RearrangedDistinct(pairs, sorted);
    forall i, j | 0 <= i < j < |sorted| ensures sorted[i].pos < sorted[j].pos {
      assert sorted[i] in pairs && sorted[j] in pairs;
    }
  }
}
