/** Sorting positions by value, rearrangements, and sums that do not depend on the order. */
module Ordering {
  import opened Basics

  // ---------- rearrangements ----------

  function ToSet(p: seq<nat>): set<nat> {
    set x | x in p
  }

  lemma {:induction false} ToSetAppend(p: seq<nat>, x: nat)
    ensures ToSet(p + [x]) == ToSet(p) + {x}
  {
  }

  lemma {:induction false} ToSetCount(p: seq<nat>)
    ensures |ToSet(p)| <= |p|
    ensures |ToSet(p)| == |p| <==> Distinct(p)
  {
    if |p| == 0 {
      assert ToSet(p) == {};
    } else {
      var init, x := p[..|p| - 1], p[|p| - 1];
      ToSetCount(init);
      assert p == init + [x];
      ToSetAppend(init, x);
      if x in init {
        var i :| 0 <= i < |init| && init[i] == x;
        assert p[i] == p[|p| - 1];
      }
    }
  }

  lemma {:induction false} SubsetSameSize(a: set<nat>, b: set<nat>)
    requires a <= b
    ensures |a| <= |b| && (|a| == |b| ==> a == b)
  {
    if a != {} {
      var x :| x in a;
      SubsetSameSize(a - {x}, b - {x});
    }
  }

  function Below(n: nat): (r: set<nat>)
    ensures |r| == n && forall k: nat :: k in r <==> k < n
  {
    if n == 0 then {} else Below(n - 1) + {n - 1}
  }

  /** Positions within range hit every position exactly when none is repeated. */
  lemma {:induction false} CoversExactlyWhenDistinct(p: seq<nat>)
    requires forall i | 0 <= i < |p| :: p[i] < |p|
    ensures Distinct(p) <==> forall k | 0 <= k < |p| :: k in p
  {
    hide Distinct;
    ToSetCount(p);
    SubsetSameSize(ToSet(p), Below(|p|));
    if forall k | 0 <= k < |p| :: k in p {
      assert ToSet(p) == Below(|p|);
    }
    if ToSet(p) == Below(|p|) {
      forall k | 0 <= k < |p| ensures k in p {
        assert k in ToSet(p);
      }
    }
  }

  function Gather<T>(v: seq<T>, p: seq<nat>): (r: seq<T>)
    requires forall i | 0 <= i < |p| :: p[i] < |v|
    ensures |r| == |p|
  {
    seq(|p|, i requires 0 <= i < |p| => v[p[i]])
  }

  lemma {:induction false} CancelOne<T>(a: multiset<T>, b: multiset<T>, x: T)
    requires a + multiset{x} == b + multiset{x}
    ensures a == b
  {
    assert a == (a + multiset{x}) - multiset{x};
    assert b == (b + multiset{x}) - multiset{x};
  }

  lemma {:induction false} GatherRearranged<T>(v: seq<T>, p: seq<nat>, q: seq<nat>)
    requires forall i | 0 <= i < |p| :: p[i] < |v|
    requires forall i | 0 <= i < |q| :: q[i] < |v|
    requires multiset(p) == multiset(q)
    ensures multiset(Gather(v, p)) == multiset(Gather(v, q))
    decreases |p|
  {
    if |p| == 0 {
      assert |multiset(q)| == |q| && |multiset(p)| == 0;
      assert Gather(v, p) == Gather(v, q);
    } else {
      var m := |p| - 1;
      assert p[m] in multiset(q);
      var j :| 0 <= j < |q| && q[j] == p[m];
      WithoutMultiset(p, m);
      WithoutMultiset(q, j);
      assert Without(p, m) == p[..m];
      CancelOne(multiset(p[..m]), multiset(Without(q, j)), p[m]);
      GatherRearranged(v, p[..m], Without(q, j));
      assert Gather(v, Without(q, j)) == Without(Gather(v, q), j);
      assert Gather(v, p[..m]) == Without(Gather(v, p), m);
      WithoutMultiset(Gather(v, p), m);
      WithoutMultiset(Gather(v, q), j);
    }
  }

  lemma {:induction false} SameElements(p: seq<nat>, q: seq<nat>)
    requires Distinct(p) && Distinct(q) && forall x :: x in p <==> x in q
    ensures multiset(p) == multiset(q)
  {
    forall x ensures multiset(p)[x] == multiset(q)[x] {
      DistinctOnce(p, x);
      DistinctOnce(q, x);
      assert x in p <==> x in multiset(p);
      assert x in q <==> x in multiset(q);
    }
  }

  /** Picking every position once rearranges. */
  lemma {:induction false} PermutationGathers<T>(v: seq<T>, p: seq<nat>)
    requires Permutation(p) && |p| == |v|
    ensures multiset(Gather(v, p)) == multiset(v)
  {
    var id := Iota(|v|);
    CoversExactlyWhenDistinct(p);
    forall x ensures x in p <==> x in id {
      if x in id {
        var k :| 0 <= k < |id| && id[k] == x;
      }
      if x in p {
        assert id[x] == x;
      }
    }
    SameElements(p, id);
    GatherRearranged(v, p, id);
    assert Gather(v, id) == v;
  }

  // ---------- sums ----------

  lemma {:induction false} SumRearranged(a: seq<real>, b: seq<real>)
    requires multiset(a) == multiset(b)
    ensures Sum(a) == Sum(b)
    decreases |a|
  {
    if |a| == 0 {
      assert |multiset(b)| == |b| && |multiset(a)| == 0;
      assert a == b;
    } else {
      assert a[0] in multiset(b);
      var j :| 0 <= j < |b| && b[j] == a[0];
      WithoutMultiset(a, 0);
      WithoutMultiset(b, j);
      CancelOne(multiset(Without(a, 0)), multiset(Without(b, j)), a[0]);
      SumRearranged(Without(a, 0), Without(b, j));
      SumRemove(a, 0);
      SumRemove(b, j);
    }
  }

  // ---------- sorting positions ----------

  /** Lower values first, equal values by position. */
  predicate Before(v: seq<real>, a: nat, b: nat)
    requires a < |v| && b < |v|
  {
    v[a] < v[b] || (v[a] == v[b] && a < b)
  }

  ghost predicate Slots(v: seq<real>, order: seq<nat>) {
    forall i | 0 <= i < |order| :: order[i] < |v|
  }

  ghost predicate Ascending(v: seq<real>, order: seq<nat>) {
    Slots(v, order) && forall i, j | 0 <= i < j < |order| :: Before(v, order[i], order[j])
  }

  function InsertSlot(v: seq<real>, order: seq<nat>, s: nat): (r: seq<nat>)
    requires s < |v| && Slots(v, order)
    ensures Slots(v, r) && |r| == |order| + 1
  {
    if |order| == 0 || Before(v, s, order[0]) then [s] + order
    else [order[0]] + InsertSlot(v, order[1..], s)
  }

  lemma {:induction false} InsertSlotKeepsOrder(v: seq<real>, order: seq<nat>, s: nat)
    requires s < |v| && Ascending(v, order) && s !in order
    ensures Ascending(v, InsertSlot(v, order, s))
    ensures forall x :: x in InsertSlot(v, order, s) <==> x in order || x == s
  {
    if |order| == 0 || Before(v, s, order[0]) {
    } else {
      var rest := InsertSlot(v, order[1..], s);
      InsertSlotKeepsOrder(v, order[1..], s);
      assert order == [order[0]] + order[1..];
      forall j | 0 <= j < |rest| ensures Before(v, order[0], rest[j]) {
        assert rest[j] in rest;
        if rest[j] != s {
          var k :| 0 <= k < |order[1..]| && order[1..][k] == rest[j];
        } else {
          assert s != order[0];
        }
      }
    }
  }

  /** The first k positions, sorted. */
  function SortedSlots(v: seq<real>, k: nat): (r: seq<nat>)
    requires k <= |v|
    ensures Slots(v, r) && |r| == k
  {
    if k == 0 then [] else InsertSlot(v, SortedSlots(v, k - 1), k - 1)
  }

  function SlotOrder(v: seq<real>): (r: seq<nat>)
    ensures Slots(v, r) && |r| == |v|
  {
    SortedSlots(v, |v|)
  }

  lemma {:induction false} SortedSlotsAscend(v: seq<real>, k: nat)
    requires k <= |v|
    ensures Ascending(v, SortedSlots(v, k))
    ensures forall x: nat :: x in SortedSlots(v, k) <==> x < k
  {
    if k > 0 {
      SortedSlotsAscend(v, k - 1);
      InsertSlotKeepsOrder(v, SortedSlots(v, k - 1), k - 1);
    }
  }

  lemma {:induction false} SlotOrderPermutes(v: seq<real>)
    ensures Ascending(v, SlotOrder(v)) && Permutation(SlotOrder(v))
  {
    SortedSlotsAscend(v, |v|);
  }

  /** Every slot has its place. */
  lemma {:induction false} PlaceOf(v: seq<real>, s: nat) returns (k: nat)
    requires s < |v|
    ensures k < |v| && SlotOrder(v)[k] == s
  {
    hide SlotOrder;
    SlotOrderPermutes(v);
    CoversExactlyWhenDistinct(SlotOrder(v));
    assert s in SlotOrder(v);
    k :| 0 <= k < |v| && SlotOrder(v)[k] == s;
  }

  /** The values in ascending order. */
  function SortedValues(v: seq<real>): (r: seq<real>)
    ensures |r| == |v|
  {
    Gather(v, SlotOrder(v))
  }

  ghost predicate Nondecreasing(v: seq<real>) {
    forall i, j | 0 <= i <= j < |v| :: v[i] <= v[j]
  }

  lemma {:induction false} SortedValuesSort(v: seq<real>)
    ensures Nondecreasing(SortedValues(v)) && multiset(SortedValues(v)) == multiset(v)
  {
    SlotOrderPermutes(v);
    PermutationGathers(v, SlotOrder(v));
  }
}
