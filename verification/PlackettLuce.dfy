/** plackettLuceAssign (internal/racegen/generators/odds.go:382-409): weighted sampling without
    replacement from a shrinking slice, and the distribution it draws from. */
module PlackettLuce {
  import opened Arithmetic
  import opened Basics
  import opened CertifiedDraws
  import opened WeightedDraw

  function WeightsOf(w: seq<real>, avail: seq<nat>): (ws: seq<real>)
    requires Within(w, avail)
    ensures |ws| == |avail|
  {
    seq(|avail|, k requires 0 <= k < |avail| => w[avail[k]])
  }

  predicate Within(w: seq<real>, avail: seq<nat>) {
    forall k | 0 <= k < |avail| :: avail[k] < |w|
  }

  /** p lists the members of avail, each once. */
  ghost predicate Arranges(p: seq<nat>, avail: seq<nat>) {
    Distinct(p) && |p| == |avail| && forall i | 0 <= i < |p| :: p[i] in avail
  }

  // ---------- index choices and the orders they pick ----------

  /** The order picked by taking avail[js[0]] out first, and so on; the last one is forced. */
  function PickOrder(avail: seq<nat>, js: seq<nat>): (p: seq<nat>)
    requires Choices(|avail|, js)
    ensures |p| == |avail|
    decreases |avail|
  {
    if |avail| <= 1 then avail else [avail[js[0]]] + PickOrder(Without(avail, js[0]), js[1..])
  }

  function ChoicesTo(avail: seq<nat>, p: seq<nat>): (js: seq<nat>)
    decreases |avail|
  {
    if |avail| <= 1 || |p| == 0 || p[0] !in avail then [] else
      var j := IndexOf(avail, p[0]);
      [j] + ChoicesTo(Without(avail, j), p[1..])
  }

  lemma {:induction false} TailArranges(p: seq<nat>, avail: seq<nat>, j: nat)
    requires |p| > 0 && Arranges(p, avail) && Distinct(avail) && j < |avail| && avail[j] == p[0]
    ensures Arranges(p[1..], Without(avail, j)) && Distinct(Without(avail, j))
  {
    WithoutDistinct(avail, j);
    forall i | 0 <= i < |p| - 1 ensures p[1..][i] in Without(avail, j) {
      assert p[i + 1] in avail && p[i + 1] != p[0];
    }
  }

  lemma {:induction false} HeadArranges(p: seq<nat>, avail: seq<nat>, j: nat)
    requires Distinct(avail) && j < |avail| && Arranges(p, Without(avail, j))
    ensures Arranges([avail[j]] + p, avail)
  {
    WithoutDistinct(avail, j);
    var q := [avail[j]] + p;
    forall i | 0 <= i < |q| ensures q[i] in avail && (i > 0 ==> q[i] != avail[j]) {
      if i > 0 {
        assert q[i] == p[i - 1];
      }
    }
  }

  lemma {:induction false} PickOrderArranges(avail: seq<nat>, js: seq<nat>)
    requires Distinct(avail) && Choices(|avail|, js)
    ensures Arranges(PickOrder(avail, js), avail)
    decreases |avail|
  {
    if |avail| > 1 {
      WithoutDistinct(avail, js[0]);
      PickOrderArranges(Without(avail, js[0]), js[1..]);
      HeadArranges(PickOrder(Without(avail, js[0]), js[1..]), avail, js[0]);
    }
  }

  /** Every choice sequence is recovered from its order. */
  lemma {:induction false} ChoicesRecovered(avail: seq<nat>, js: seq<nat>)
    requires Distinct(avail) && Choices(|avail|, js)
    ensures ChoicesTo(avail, PickOrder(avail, js)) == js
    decreases |avail|
  {
    if |avail| > 1 {
      var p := PickOrder(avail, js);
      assert p[0] == avail[js[0]] && p[1..] == PickOrder(Without(avail, js[0]), js[1..]);
      assert IndexOf(avail, p[0]) == js[0];
      WithoutDistinct(avail, js[0]);
      ChoicesRecovered(Without(avail, js[0]), js[1..]);
    }
  }

  /** Every order is reached by a choice sequence. */
  lemma {:induction false} OrderReached(avail: seq<nat>, p: seq<nat>)
    requires Distinct(avail) && Arranges(p, avail)
    ensures Choices(|avail|, ChoicesTo(avail, p)) && PickOrder(avail, ChoicesTo(avail, p)) == p
    decreases |avail|
  {
    hide Distinct, ChoicesTo, PickOrder, Choices, IndexOf, Without;
    if |avail| <= 1 {
      ForcedOrder(avail, p);
    } else {
      assert p[0] in avail;
      var j := IndexOf(avail, p[0]);
      TailArranges(p, avail, j);
      OrderReached(Without(avail, j), p[1..]);
      ChosenNext(avail, p, j);
      assert p == [p[0]] + p[1..];
    }
  }

  lemma {:induction false} ForcedOrder(avail: seq<nat>, p: seq<nat>)
    requires |avail| <= 1 && Arranges(p, avail)
    ensures Choices(|avail|, ChoicesTo(avail, p)) && PickOrder(avail, ChoicesTo(avail, p)) == p
  {
    if |avail| == 1 {
      assert p[0] in avail;
    }
  }

  lemma {:induction false} ChosenNext(avail: seq<nat>, p: seq<nat>, j: nat)
    requires |avail| > 1 && |p| > 0 && p[0] in avail && j == IndexOf(avail, p[0])
    requires Choices(|avail| - 1, ChoicesTo(Without(avail, j), p[1..]))
    ensures Choices(|avail|, ChoicesTo(avail, p))
    ensures PickOrder(avail, ChoicesTo(avail, p)) ==
            [p[0]] + PickOrder(Without(avail, j), ChoicesTo(Without(avail, j), p[1..]))
  {
    hide IndexOf, Without;
    var js := ChoicesTo(Without(avail, j), p[1..]);
    assert ([j] + js)[1..] == js;
  }

  // ---------- the distribution ----------

  /** Product, over the places, of the weight placed there over the weight not placed before. */
  function OrderProbability(w: seq<real>, p: seq<nat>): real
    requires AllPositive(w) && Within(w, p)
  {
    if |p| == 0 then 1.0 else
      RemainingPositive(w, p);
      w[p[0]] / Sum(WeightsOf(w, p)) * OrderProbability(w, p[1..])
  }

  lemma {:induction false} RemainingPositive(w: seq<real>, avail: seq<nat>)
    requires AllPositive(w) && Within(w, avail) && |avail| > 0
    ensures Sum(WeightsOf(w, avail)) > 0.0
  {
    SumPositive(WeightsOf(w, avail));
  }

  /** The product of the ideal probabilities of the index choices (see ScanFindsSlice). */
  function ChoiceProbability(w: seq<real>, avail: seq<nat>, js: seq<nat>): real
    requires AllPositive(w) && Within(w, avail) && Choices(|avail|, js)
    decreases |avail|
  {
    if |avail| <= 1 then 1.0 else
      RemainingPositive(w, avail);
      w[avail[js[0]]] / Sum(WeightsOf(w, avail)) * ChoiceProbability(w, Without(avail, js[0]), js[1..])
  }

  lemma {:induction false} WeightWithout(w: seq<real>, avail: seq<nat>, j: nat)
    requires Within(w, avail) && j < |avail|
    ensures Sum(WeightsOf(w, avail)) == w[avail[j]] + Sum(WeightsOf(w, Without(avail, j)))
  {
    var ws := WeightsOf(w, avail);
    SumRemove(ws, j);
    assert WeightsOf(w, Without(avail, j)) == ws[..j] + ws[j + 1..];
  }

  lemma {:induction false} WeightHead(w: seq<real>, p: seq<nat>)
    requires Within(w, p) && |p| > 0
    ensures Sum(WeightsOf(w, p)) == w[p[0]] + Sum(WeightsOf(w, p[1..]))
  {
    SumHead(WeightsOf(w, p));
    assert WeightsOf(w, p)[1..] == WeightsOf(w, p[1..]);
  }

  /** Rearranging the remaining ranks does not change the remaining weight. */
  lemma {:induction false} ArrangedWeight(w: seq<real>, p: seq<nat>, avail: seq<nat>)
    requires Distinct(avail) && Arranges(p, avail) && Within(w, avail)
    ensures Within(w, p) && Sum(WeightsOf(w, p)) == Sum(WeightsOf(w, avail))
    decreases |p|
  {
    if |p| > 0 {
      assert p[0] in avail;
      var j := IndexOf(avail, p[0]);
      TailArranges(p, avail, j);
      ArrangedWeight(w, p[1..], Without(avail, j));
      WeightWithout(w, avail, j);
      WeightHead(w, p);
    }
  }

  lemma {:induction false} SingleOrder(w: seq<real>, p: seq<nat>)
    requires AllPositive(w) && Within(w, p) && |p| <= 1
    ensures OrderProbability(w, p) == 1.0
  {
    if |p| == 1 {
      RemainingPositive(w, p);
      WeightHead(w, p);
      assert OrderProbability(w, p[1..]) == 1.0;
    }
  }

  lemma {:induction false} FirstPick(w: seq<real>, avail: seq<nat>, js: seq<nat>)
    requires Choices(|avail|, js) && |avail| > 1 && Within(w, avail) && Distinct(avail)
    ensures |js| > 0 && Choices(|avail| - 1, js[1..]) && js[0] < |avail| && avail[js[0]] < |w|
    ensures var rest := Without(avail, js[0]);
            Within(w, rest) && Distinct(rest) && PickOrder(avail, js) == [avail[js[0]]] + PickOrder(rest, js[1..])
  {
    WithoutDistinct(avail, js[0]);
  }

  lemma {:induction false} FirstChoice(w: seq<real>, avail: seq<nat>, js: seq<nat>)
    requires AllPositive(w) && Choices(|avail|, js) && |avail| > 1 && Within(w, avail)
    requires js[0] < |avail| && Within(w, Without(avail, js[0])) && Choices(|avail| - 1, js[1..])
    ensures Sum(WeightsOf(w, avail)) > 0.0
    ensures ChoiceProbability(w, avail, js) ==
              w[avail[js[0]]] / Sum(WeightsOf(w, avail)) * ChoiceProbability(w, Without(avail, js[0]), js[1..])
  {
    hide Sum, WeightsOf, Without;
    RemainingPositive(w, avail);
  }

  lemma {:induction false} FirstPlace(w: seq<real>, a: nat, rest: seq<nat>)
    requires AllPositive(w) && Within(w, [a] + rest) && Within(w, rest) && a < |w|
    ensures Sum(WeightsOf(w, [a] + rest)) > 0.0
    ensures OrderProbability(w, [a] + rest) ==
              w[a] / Sum(WeightsOf(w, [a] + rest)) * OrderProbability(w, rest)
  {
    hide Sum;
    assert ([a] + rest)[1..] == rest;
    RemainingPositive(w, [a] + rest);
  }

  /** The index choices behind an order have exactly the Plackett-Luce probability of the order. */
  lemma {:induction false} ChoiceProbabilityIsOrderProbability(w: seq<real>, avail: seq<nat>, js: seq<nat>)
    requires AllPositive(w) && Distinct(avail) && Within(w, avail) && Choices(|avail|, js)
    ensures Within(w, PickOrder(avail, js))
    ensures ChoiceProbability(w, avail, js) == OrderProbability(w, PickOrder(avail, js))
    decreases |avail|
  {
    PickOrderArranges(avail, js);
    ArrangedWeight(w, PickOrder(avail, js), avail);
    if |avail| <= 1 {
      SingleOrder(w, avail);
    } else {
      FirstChoiceStep(w, avail, js);
    }
  }

  lemma {:induction false} FirstChoiceStep(w: seq<real>, avail: seq<nat>, js: seq<nat>)
    requires AllPositive(w) && Distinct(avail) && Within(w, avail) && Choices(|avail|, js) && |avail| > 1
    requires Within(w, PickOrder(avail, js))
    requires Sum(WeightsOf(w, PickOrder(avail, js))) == Sum(WeightsOf(w, avail))
    ensures ChoiceProbability(w, avail, js) == OrderProbability(w, PickOrder(avail, js))
    decreases |avail|, 0
  {
    hide *;
    FirstPick(w, avail, js);
    FirstChoice(w, avail, js);
    var rest := Without(avail, js[0]);
    ChoiceProbabilityIsOrderProbability(w, rest, js[1..]);
    FirstPlace(w, avail[js[0]], PickOrder(rest, js[1..]));
  }

  // ---------- all orders ----------

  function Prepended(a: nat, ps: seq<seq<nat>>): (r: seq<seq<nat>>)
    ensures |r| == |ps|
  {
    seq(|ps|, i requires 0 <= i < |ps| => [a] + ps[i])
  }

  /** The orders that start with one of the first k members of avail. */
  function OrdersFrom(avail: seq<nat>, k: nat): seq<seq<nat>>
    requires k <= |avail|
    decreases |avail|, k
  {
    if k == 0 then [] else OrdersFrom(avail, k - 1) + Prepended(avail[k - 1], AllOrders(Without(avail, k - 1)))
  }

  function AllOrders(avail: seq<nat>): seq<seq<nat>>
    decreases |avail|, |avail| + 1
  {
    if |avail| == 0 then [[]] else OrdersFrom(avail, |avail|)
  }

  lemma {:induction false} OrdersFromMembers(avail: seq<nat>, k: nat, p: seq<nat>)
    requires Distinct(avail) && k <= |avail|
    ensures p in OrdersFrom(avail, k) <==> |p| > 0 && p[0] in avail[..k] && Arranges(p, avail)
    decreases |avail|, k
  {
    if k > 0 {
      OrdersFromMembers(avail, k - 1, p);
      PrependedMembers(avail, k - 1, p);
      assert avail[..k] == avail[..k - 1] + [avail[k - 1]];
    }
  }

  lemma {:induction false} PrependedMembers(avail: seq<nat>, j: nat, p: seq<nat>)
    requires Distinct(avail) && j < |avail|
    ensures p in Prepended(avail[j], AllOrders(Without(avail, j))) <==>
              |p| > 0 && p[0] == avail[j] && Arranges(p, avail)
    decreases |avail|, 0
  {
    var rest := Without(avail, j);
    WithoutDistinct(avail, j);
    if p in Prepended(avail[j], AllOrders(rest)) {
      var i :| 0 <= i < |AllOrders(rest)| && p == [avail[j]] + AllOrders(rest)[i];
      AllOrdersComplete(rest, p[1..]);
      HeadArranges(p[1..], avail, j);
    }
    if |p| > 0 && p[0] == avail[j] && Arranges(p, avail) {
      TailArranges(p, avail, j);
      AllOrdersComplete(rest, p[1..]);
      var i :| 0 <= i < |AllOrders(rest)| && AllOrders(rest)[i] == p[1..];
      assert p == Prepended(avail[j], AllOrders(rest))[i];
    }
  }

  /** AllOrders lists exactly the arrangements of avail. */
  lemma {:induction false} AllOrdersComplete(avail: seq<nat>, p: seq<nat>)
    requires Distinct(avail)
    ensures p in AllOrders(avail) <==> Arranges(p, avail)
    decreases |avail|, |avail| + 1
  {
    if |avail| > 0 {
      OrdersFromMembers(avail, |avail|, p);
      assert avail[..|avail|] == avail;
    }
  }

  lemma {:induction false} OrderAt(avail: seq<nat>, i: nat)
    requires Distinct(avail) && i < |AllOrders(avail)|
    ensures Arranges(AllOrders(avail)[i], avail)
  {
    AllOrdersComplete(avail, AllOrders(avail)[i]);
  }

  lemma {:induction false} OrdersFromDistinct(avail: seq<nat>, k: nat)
    requires Distinct(avail) && k <= |avail|
    ensures Distinct(OrdersFrom(avail, k))
    decreases |avail|, k
  {
    hide Arranges, AllOrders, Without, Distinct, Prepended;
    if k == 0 {
      NoOrders(avail);
    } else {
      var a, rest := avail[k - 1], Without(avail, k - 1);
      var front, back := OrdersFrom(avail, k - 1), Prepended(avail[k - 1], AllOrders(rest));
      OrdersFromDistinct(avail, k - 1);
      WithoutDistinct(avail, k - 1);
      AllOrdersDistinct(rest);
      PrependedDistinct(a, AllOrders(rest));
      forall i, j | 0 <= i < |front| && 0 <= j < |back| ensures front[i] != back[j] {
        OrdersFromMembers(avail, k - 1, front[i]);
        assert front[i] in front;
        NotAmongFirst(avail, k - 1);
        PrependedAt(a, AllOrders(rest), j);
      }
      DistinctConcat(front, back);
    }
  }

  lemma {:induction false} NoOrders(avail: seq<nat>)
    ensures Distinct(OrdersFrom(avail, 0))
  {
  }

  lemma {:induction false} PrependedAt(a: nat, ps: seq<seq<nat>>, j: nat)
    requires j < |ps|
    ensures Prepended(a, ps)[j] == [a] + ps[j]
  {
  }

  lemma {:induction false} NotAmongFirst(avail: seq<nat>, k: nat)
    requires Distinct(avail) && k < |avail|
    ensures avail[k] !in avail[..k]
  {
  }

  lemma {:induction false} DistinctConcat(a: seq<seq<nat>>, b: seq<seq<nat>>)
    requires Distinct(a) && Distinct(b)
    requires forall i, j | 0 <= i < |a| && 0 <= j < |b| :: a[i] != b[j]
    ensures Distinct(a + b)
  {
  }

  lemma {:induction false} PrependedDistinct(a: nat, ps: seq<seq<nat>>)
    requires Distinct(ps)
    ensures Distinct(Prepended(a, ps))
  {
    forall i, j | 0 <= i < j < |ps| ensures Prepended(a, ps)[i] != Prepended(a, ps)[j] {
      assert Prepended(a, ps)[i][1..] == ps[i] && Prepended(a, ps)[j][1..] == ps[j];
    }
  }

  /** No order is listed twice. */
  lemma {:induction false} AllOrdersDistinct(avail: seq<nat>)
    requires Distinct(avail)
    ensures Distinct(AllOrders(avail))
    decreases |avail|, |avail| + 1
  {
    if |avail| > 0 {
      OrdersFromDistinct(avail, |avail|);
    }
  }

  // ---------- the probability of a beginning ----------

  ghost predicate AllWithin(w: seq<real>, ps: seq<seq<nat>>) {
    forall i | 0 <= i < |ps| :: Within(w, ps[i])
  }

  /** The probabilities of the orders that begin with pre; zero for the others. */
  function Matching(w: seq<real>, ps: seq<seq<nat>>, pre: seq<nat>): (r: seq<real>)
    requires AllPositive(w) && AllWithin(w, ps)
    ensures |r| == |ps|
  {
    seq(|ps|, i requires 0 <= i < |ps| => if pre <= ps[i] then OrderProbability(w, ps[i]) else 0.0)
  }

  /** Place by place, the weight placed over the weight then remaining. */
  function PrefixProbability(w: seq<real>, avail: seq<nat>, pre: seq<nat>): real
    requires AllPositive(w) && Within(w, avail)
    decreases |avail|
  {
    if |pre| == 0 || pre[0] !in avail then 1.0 else
      RemainingPositive(w, avail);
      var j := IndexOf(avail, pre[0]);
      w[pre[0]] / Sum(WeightsOf(w, avail)) * PrefixProbability(w, Without(avail, j), pre[1..])
  }

  ghost predicate AllWeigh(w: seq<real>, ps: seq<seq<nat>>, total: real)
    requires AllWithin(w, ps)
  {
    forall i | 0 <= i < |ps| :: Sum(WeightsOf(w, ps[i])) == total
  }

  lemma {:induction false} OrdersWeigh(w: seq<real>, avail: seq<nat>)
    requires Distinct(avail) && Within(w, avail)
    ensures AllWithin(w, AllOrders(avail)) && AllWeigh(w, AllOrders(avail), Sum(WeightsOf(w, avail)))
  {
    forall i | 0 <= i < |AllOrders(avail)|
      ensures Within(w, AllOrders(avail)[i])
      ensures Sum(WeightsOf(w, AllOrders(avail)[i])) == Sum(WeightsOf(w, avail))
    {
      OrderAt(avail, i);
      ArrangedWeight(w, AllOrders(avail)[i], avail);
    }
  }

  lemma {:induction false} PrependedProbability(w: seq<real>, a: nat, p: seq<nat>, total: real)
    requires AllPositive(w) && a < |w| && Within(w, p)
    requires total > 0.0 && total == w[a] + Sum(WeightsOf(w, p))
    ensures Within(w, [a] + p)
    ensures OrderProbability(w, [a] + p) == w[a] / total * OrderProbability(w, p)
  {
    hide Sum, OrderProbability;
    assert ([a] + p)[1..] == p;
    WeightHead(w, [a] + p);
    FirstPlace(w, a, p);
  }

  lemma {:induction false} BlockIsScaled(w: seq<real>, a: nat, ps: seq<seq<nat>>, pre: seq<nat>, total: real)
    requires AllPositive(w) && a < |w| && total > 0.0
    requires AllWithin(w, ps) && AllWeigh(w, ps, total - w[a])
    ensures AllWithin(w, Prepended(a, ps))
    ensures var hit := |pre| == 0 || pre[0] == a;
            Matching(w, Prepended(a, ps), pre) ==
              Scaled(if hit then w[a] / total else 0.0, Matching(w, ps, if |pre| == 0 then [] else pre[1..]))
  {
    hide Sum, OrderProbability;
    forall i | 0 <= i < |ps|
      ensures Within(w, Prepended(a, ps)[i])
      ensures OrderProbability(w, Prepended(a, ps)[i]) == w[a] / total * OrderProbability(w, ps[i])
      ensures pre <= Prepended(a, ps)[i] <==> |pre| == 0 || (pre[0] == a && pre[1..] <= ps[i])
    {
      PrependedProbability(w, a, ps[i], total);
      PrefixOfPrepended(a, ps[i], pre);
    }
    var hit := |pre| == 0 || pre[0] == a;
    var scaled := Scaled(if hit then w[a] / total else 0.0, Matching(w, ps, if |pre| == 0 then [] else pre[1..]));
    forall i | 0 <= i < |ps| ensures Matching(w, Prepended(a, ps), pre)[i] == scaled[i] {
      assert pre <= Prepended(a, ps)[i] ==> hit;
    }
  }

  /** Orders that start with a: a scaled copy of the orders of the rest, or nothing. */
  lemma {:induction false} BlockMatching(w: seq<real>, a: nat, ps: seq<seq<nat>>, pre: seq<nat>, total: real)
    requires AllPositive(w) && a < |w| && total > 0.0
    requires AllWithin(w, ps) && AllWeigh(w, ps, total - w[a])
    ensures AllWithin(w, Prepended(a, ps))
    ensures Sum(Matching(w, Prepended(a, ps), pre)) ==
              if |pre| == 0 then w[a] / total * Sum(Matching(w, ps, []))
              else if pre[0] == a then w[a] / total * Sum(Matching(w, ps, pre[1..]))
              else 0.0
  {
    hide *;
    var hit := |pre| == 0 || pre[0] == a;
    var tail := if |pre| == 0 then [] else pre[1..];
    BlockIsScaled(w, a, ps, pre, total);
    ScaledTotal(if hit then w[a] / total else 0.0, Matching(w, ps, tail));
  }

  lemma {:induction false} PrefixOfPrepended(a: nat, p: seq<nat>, pre: seq<nat>)
    ensures pre <= [a] + p <==> |pre| == 0 || (pre[0] == a && pre[1..] <= p)
  {
    if |pre| > 0 {
      assert pre == [pre[0]] + pre[1..];
      if pre <= [a] + p {
        assert pre[1..] == ([a] + p)[..|pre|][1..] == p[..|pre| - 1];
      }
      if pre[0] == a && pre[1..] <= p {
        assert pre == ([a] + p)[..|pre|];
      }
    }
  }

  ghost predicate Beginning(pre: seq<nat>, avail: seq<nat>) {
    Distinct(pre) && forall i | 0 <= i < |pre| :: pre[i] in avail
  }

  lemma {:induction false} BeginningFits(pre: seq<nat>, avail: seq<nat>)
    requires Beginning(pre, avail) && |pre| > 0
    ensures |avail| > 0
  {
    assert pre[0] in avail;
  }

  lemma {:induction false} BeginningTail(pre: seq<nat>, avail: seq<nat>, j: nat)
    requires Distinct(avail) && Beginning(pre, avail) && |pre| > 0 && j < |avail| && avail[j] == pre[0]
    ensures Beginning(pre[1..], Without(avail, j)) && IndexOf(avail, pre[0]) == j
  {
    WithoutDistinct(avail, j);
    forall i | 0 <= i < |pre| - 1 ensures pre[1..][i] in Without(avail, j) {
      assert pre[i + 1] in avail && pre[i + 1] != pre[0];
    }
  }

  lemma {:induction false} MatchingConcat(w: seq<real>, a: seq<seq<nat>>, b: seq<seq<nat>>, pre: seq<nat>)
    requires AllPositive(w) && AllWithin(w, a) && AllWithin(w, b)
    ensures AllWithin(w, a + b)
    ensures Sum(Matching(w, a + b, pre)) == Sum(Matching(w, a, pre)) + Sum(Matching(w, b, pre))
  {
    assert Matching(w, a + b, pre) == Matching(w, a, pre) + Matching(w, b, pre);
    SumConcat(Matching(w, a, pre), Matching(w, b, pre));
  }

  /** What the orders starting with the first k members of avail contribute to a beginning. */
  function Share(w: seq<real>, avail: seq<nat>, k: nat, pre: seq<nat>): real
    requires AllPositive(w) && Within(w, avail) && k <= |avail|
  {
    if k == 0 then 0.0 else
      RemainingPositive(w, avail);
      if |pre| == 0 then Prefix(WeightsOf(w, avail), k) / Sum(WeightsOf(w, avail))
      else if pre[0] in avail && IndexOf(avail, pre[0]) < k then PrefixProbability(w, avail, pre)
      else 0.0
  }

  lemma {:induction false} ShareStep(w: seq<real>, avail: seq<nat>, k: nat, pre: seq<nat>)
    requires AllPositive(w) && Within(w, avail) && 0 < k <= |avail|
    requires Distinct(avail) && Beginning(pre, avail)
    ensures Within(w, Without(avail, k - 1)) && Sum(WeightsOf(w, avail)) > 0.0
    ensures var c, rest := w[avail[k - 1]] / Sum(WeightsOf(w, avail)), Without(avail, k - 1);
            Share(w, avail, k, pre) == Share(w, avail, k - 1, pre) +
              if |pre| == 0 then c
              else if pre[0] == avail[k - 1] then c * PrefixProbability(w, rest, pre[1..])
              else 0.0
  {
    hide Sum, IndexOf, PrefixProbability, Distinct;
    RemainingPositive(w, avail);
    if |pre| == 0 {
      SplitRatio(Prefix(WeightsOf(w, avail), k - 1), w[avail[k - 1]], Sum(WeightsOf(w, avail)));
    } else {
      assert pre[0] in avail;
      OnlyIndex(avail, pre[0], k - 1);
      FirstFactor(w, avail, pre, IndexOf(avail, pre[0]));
    }
  }

  lemma {:induction false} FirstFactor(w: seq<real>, avail: seq<nat>, pre: seq<nat>, j: nat)
    requires AllPositive(w) && Within(w, avail) && |pre| > 0 && pre[0] in avail && j == IndexOf(avail, pre[0])
    requires Within(w, Without(avail, j)) && Sum(WeightsOf(w, avail)) > 0.0
    ensures PrefixProbability(w, avail, pre) ==
              w[pre[0]] / Sum(WeightsOf(w, avail)) * PrefixProbability(w, Without(avail, j), pre[1..])
  {
    hide Sum, Without, IndexOf, WeightsOf, Within;
  }

  lemma {:induction false} OnlyIndex(avail: seq<nat>, x: nat, k: nat)
    requires Distinct(avail) && x in avail && k < |avail|
    ensures avail[k] == x <==> IndexOf(avail, x) == k
  {
  }

  lemma {:induction false} OrdersFromShare(w: seq<real>, avail: seq<nat>, k: nat, pre: seq<nat>)
    requires AllPositive(w) && Within(w, avail) && Distinct(avail) && k <= |avail| && Beginning(pre, avail)
    ensures AllWithin(w, OrdersFrom(avail, k))
    ensures Sum(Matching(w, OrdersFrom(avail, k), pre)) == Share(w, avail, k, pre)
    decreases |avail|, k
  {
    if k > 0 {
      BlockShare(w, avail, k, pre);
      OrdersFromShare(w, avail, k - 1, pre);
      ShareStep(w, avail, k, pre);
      MatchingConcat(w, OrdersFrom(avail, k - 1),
                     Prepended(avail[k - 1], AllOrders(Without(avail, k - 1))), pre);
    }
  }

  lemma {:induction false} BlockShare(w: seq<real>, avail: seq<nat>, k: nat, pre: seq<nat>)
    requires AllPositive(w) && Within(w, avail) && Distinct(avail) && 0 < k <= |avail| && Beginning(pre, avail)
    ensures Within(w, Without(avail, k - 1)) && Sum(WeightsOf(w, avail)) > 0.0
    ensures var c, rest := w[avail[k - 1]] / Sum(WeightsOf(w, avail)), Without(avail, k - 1);
            var block := Prepended(avail[k - 1], AllOrders(rest));
            && AllWithin(w, block)
            && Sum(Matching(w, block, pre)) ==
                 (if |pre| == 0 then c
                  else if pre[0] == avail[k - 1] then c * PrefixProbability(w, rest, pre[1..])
                  else 0.0)
    decreases |avail|, 0
  {
    hide Sum, Matching, PrefixProbability, OrdersFrom, AllOrders, WeightsOf, AllWeigh;
    var a, rest := avail[k - 1], Without(avail, k - 1);
    RemainingPositive(w, avail);
    WithoutDistinct(avail, k - 1);
    WeightWithout(w, avail, k - 1);
    OrdersWeigh(w, rest);
    BlockMatching(w, a, AllOrders(rest), pre, Sum(WeightsOf(w, avail)));
    BeginningProbability(w, rest, []);
    if |pre| > 0 && pre[0] == a {
      BeginningTail(pre, avail, k - 1);
      BeginningProbability(w, rest, pre[1..]);
    }
  }

  /** The orders that begin with pre have together the probability of drawing pre place by place:
      all orders sum to 1, those won by a to w[a] over the total, and so on for every beginning. */
  lemma {:induction false} BeginningProbability(w: seq<real>, avail: seq<nat>, pre: seq<nat>)
    requires AllPositive(w) && Within(w, avail) && Distinct(avail) && Beginning(pre, avail)
    ensures AllWithin(w, AllOrders(avail))
    ensures Sum(Matching(w, AllOrders(avail), pre)) == PrefixProbability(w, avail, pre)
    ensures |pre| == 0 ==> Sum(Matching(w, AllOrders(avail), pre)) == 1.0
    decreases |avail|, |avail| + 1
  {
    if |avail| == 0 {
      if |pre| > 0 { BeginningFits(pre, avail); }
      EmptyOrder(w, pre);
    } else {
      OrdersFromShare(w, avail, |avail|, pre);
      RemainingPositive(w, avail);
      if |pre| > 0 {
        assert pre[0] in avail;
      }
    }
  }

  lemma {:induction false} EmptyOrder(w: seq<real>, pre: seq<nat>)
    requires AllPositive(w) && |pre| == 0
    ensures AllWithin(w, [[]]) && Sum(Matching(w, [[]], pre)) == 1.0
  {
    var m := Matching(w, [[]], pre);
    assert Prefix(m, 1) == Prefix(m, 0) + m[0];
  }

  // ---------- the method ----------

  lemma {:induction false} RankingArranges(p: seq<nat>)
    requires Permutation(p)
    ensures Arranges(p, Iota(|p|)) && Distinct(Iota(|p|))
  {
    forall i | 0 <= i < |p| ensures p[i] in Iota(|p|) {
      assert Iota(|p|)[p[i]] == p[i];
    }
  }

  /** Weighted draws without replacement are Plackett-Luce: each ranking comes from exactly one
      choice sequence, whose probability is the product of the weights over the weights remaining,
      and these probabilities sum to 1 over all rankings. */
  lemma {:induction false} ShrinkingDrawIsPlackettLuce(w: seq<real>, p: seq<nat>)
    requires AllPositive(w) && Permutation(p) && |p| == |w|
    ensures var avail := Iota(|w|);
            && Within(w, avail) && Within(w, p) && Choices(|w|, ChoicesTo(avail, p))
            && (forall js | Choices(|w|, js) :: PickOrder(avail, js) == p <==> js == ChoicesTo(avail, p))
            && ChoiceProbability(w, avail, ChoicesTo(avail, p)) == OrderProbability(w, p)
            && AllWithin(w, AllOrders(avail)) && Sum(Matching(w, AllOrders(avail), [])) == 1.0
  {
    hide Sum, PickOrder, ChoicesTo, ChoiceProbability, OrderProbability, Matching, AllOrders, AllWithin;
    var avail := Iota(|w|);
    RankingArranges(p);
    OrderReached(avail, p);
    forall js | Choices(|w|, js) ensures PickOrder(avail, js) == p <==> js == ChoicesTo(avail, p) {
      ChoicesRecovered(avail, js);
    }
    ChoiceProbabilityIsOrderProbability(w, avail, ChoicesTo(avail, p));
    BeginningProbability(w, avail, []);
  }

  /** The index choices drawn from the word stream: two words for each place but the last. */
  function DrawnChoices(words: nat -> Word, p: nat, w: seq<real>, avail: seq<nat>): (js: seq<nat>)
    requires Within(w, avail)
    ensures Choices(|avail|, js)
    decreases |avail|
  {
    if |avail| <= 1 then [] else
      var i := PickAt(words, p, WeightsOf(w, avail));
      [i] + DrawnChoices(words, p + 2, w, Without(avail, i))
  }

  function DrawnOrder(words: nat -> Word, p: nat, w: seq<real>, avail: seq<nat>): (r: seq<nat>)
    requires Within(w, avail)
    ensures |avail| == 1 ==> r == avail
  {
    PickOrder(avail, DrawnChoices(words, p, w, avail))
  }

  lemma {:induction false} DrawnOrderStep(words: nat -> Word, p: nat, w: seq<real>, avail: seq<nat>)
    requires Within(w, avail) && |avail| > 1
    ensures var i := PickAt(words, p, WeightsOf(w, avail));
            Within(w, Without(avail, i)) &&
            DrawnOrder(words, p, w, avail) == [avail[i]] + DrawnOrder(words, p + 2, w, Without(avail, i))
  {
    hide PickAt, WeightsOf;
    var i := PickAt(words, p, WeightsOf(w, avail));
    assert DrawnChoices(words, p, w, avail)[1..] == DrawnChoices(words, p + 2, w, Without(avail, i));
  }

  method SumWeights(w: seq<real>, avail: seq<nat>) returns (weights: seq<real>, total: real)
    requires Within(w, avail)
    ensures weights == WeightsOf(w, avail) && total == Sum(weights)
  {
    ghost var all := WeightsOf(w, avail);
    weights, total := [], 0.0;
    for k := 0 to |avail|
      invariant weights == all[..k] && total == Prefix(all, k)
    {
      weights := weights + [w[avail[k]]];
      total := total + w[avail[k]];
    }
  }

  method PlackettLuceAssign(src: Source, w: seq<real>) returns (pi: seq<nat>)
    requires |w| > 0
    modifies src
    ensures Within(w, Iota(|w|)) && pi == DrawnOrder(src.words, old(src.pos), w, Iota(|w|))
    ensures src.pos == old(src.pos) + 2 * (|w| - 1) && Permutation(pi)
  {
    hide PickOrder, DrawnOrder, PickAt, Permutation, WeightsOf, Sum;
    var n := |w|;
    var avail := Iota(n);
    pi := [];
    ghost var all := DrawnOrder(src.words, src.pos, w, avail);
    assert [] + all == all;
    for r := 0 to n - 1
      invariant |avail| == n - r && Within(w, avail)
      invariant src.pos == old(src.pos) + 2 * r
      invariant pi + DrawnOrder(src.words, src.pos, w, avail) == all
    {
      DrawnOrderStep(src.words, src.pos, w, avail);
      var weights, total := SumWeights(w, avail);
      var idx := DrawIndex(src, weights, total);
      ghost var rest := DrawnOrder(src.words, src.pos, w, Without(avail, idx));
      assert pi + ([avail[idx]] + rest) == pi + [avail[idx]] + rest;
      pi := pi + [avail[idx]];
      avail := Without(avail, idx);
    }
    assert avail == [avail[0]];
    pi := pi + [avail[0]];
    DrawnOrderIsPermutation(src.words, old(src.pos), w, n);
  }

  lemma {:induction false} DrawnOrderIsPermutation(words: nat -> Word, p: nat, w: seq<real>, n: nat)
    requires Within(w, Iota(n))
    ensures Permutation(DrawnOrder(words, p, w, Iota(n)))
  {
    hide PickOrder;
    var js := DrawnChoices(words, p, w, Iota(n));
    PickOrderArranges(Iota(n), js);
    var order := PickOrder(Iota(n), js);
    forall i | 0 <= i < |order| ensures order[i] < n {
      assert order[i] in Iota(n);
    }
  }
}
