/** The video selector of internal/racegen/videoselector/selector.go: index maps, the fitting
    loop over a weights array, the cumulative table and its binary search. */
module VideoSelector {
  import opened Basics
  import opened IpfFit

  // ---------- index maps ----------

  /** ms lists, in order and without gaps, the indices below n whose key is k. */
  ghost predicate Members<K>(ms: seq<nat>, keys: seq<K>, k: K, n: nat)
    requires n <= |keys|
  {
    && (forall j | 0 <= j < |ms| :: ms[j] < n && keys[ms[j]] == k)
    && (forall i | 0 <= i < n && keys[i] == k :: Covered(ms, i))
    && (forall a, b | 0 <= a < b < |ms| :: ms[a] < ms[b])
  }

  ghost predicate Covered(ms: seq<nat>, i: nat) {
    exists j :: 0 <= j < |ms| && ms[j] == i
  }

  ghost predicate Grouped<K(!new)>(idx: map<K, seq<nat>>, keys: seq<K>, n: nat)
    requires n <= |keys|
  {
    && (forall i | 0 <= i < n :: keys[i] in idx)
    && (forall k | k in idx :: Members(idx[k], keys, k, n))
  }

  lemma {:induction false} MembersAppend<K>(ms: seq<nat>, keys: seq<K>, k: K, n: nat)
    requires n < |keys| && Members(ms, keys, k, n) && keys[n] == k
    ensures Members(ms + [n], keys, k, n + 1)
  {
    var after := ms + [n];
    forall i | 0 <= i < n + 1 && keys[i] == k ensures Covered(after, i) {
      if i < n {
        assert Covered(ms, i);
        var j :| 0 <= j < |ms| && ms[j] == i;
        assert after[j] == i;
      } else {
        assert after[|ms|] == i;
      }
    }
  }

  lemma {:induction false} MembersOther<K>(ms: seq<nat>, keys: seq<K>, k: K, n: nat)
    requires n < |keys| && Members(ms, keys, k, n) && keys[n] != k
    ensures Members(ms, keys, k, n + 1)
  {
  }

  function MembersOf<K(==)>(idx: map<K, seq<nat>>, k: K): seq<nat> {
    if k in idx then idx[k] else []
  }

  lemma {:induction false} GroupedStep<K(!new)>(idx: map<K, seq<nat>>, keys: seq<K>, n: nat)
    requires n < |keys| && Grouped(idx, keys, n)
    ensures Grouped(idx[keys[n] := MembersOf(idx, keys[n]) + [n]], keys, n + 1)
  {
    var key := keys[n];
    var after := idx[key := MembersOf(idx, key) + [n]];
    assert Members(MembersOf(idx, key), keys, key, n);
    forall k | k in after ensures Members(after[k], keys, k, n + 1) {
      if k == key {
        MembersAppend(MembersOf(idx, key), keys, key, n);
      } else {
        MembersOther(idx[k], keys, k, n);
      }
    }
  }

  method BuildIndex<K(==, !new)>(keys: seq<K>) returns (idx: map<K, seq<nat>>)
    ensures Grouped(idx, keys, |keys|)
  {
    hide Members;
    idx := map[];
    for i := 0 to |keys|
      invariant Grouped(idx, keys, i)
    {
      GroupedStep(idx, keys, i);
      idx := idx[keys[i] := MembersOf(idx, keys[i]) + [i]];
    }
  }

  // ---------- group sums and group scaling ----------

  /** The sum of the first j listed weights is the mass of the entries before the next one. */
  lemma {:induction false} MemberMass<K>(w: seq<real>, ms: seq<nat>, keys: seq<K>, k: K, j: nat)
    requires |w| == |keys| && Members(ms, keys, k, |keys|) && j < |ms|
    ensures (if j == 0 then 0.0 else Mass(w, keys, k, ms[j - 1] + 1)) + w[ms[j]] == Mass(w, keys, k, ms[j] + 1)
  {
    var from := if j == 0 then 0 else ms[j - 1] + 1;
    forall i | from <= i < ms[j] ensures keys[i] != k {
      NoneBetween(ms, keys, k, j, i);
    }
    MassSkip(w, keys, k, from, ms[j]);
  }

  lemma {:induction false} NoneBetween<K>(ms: seq<nat>, keys: seq<K>, k: K, j: nat, i: nat)
    requires Members(ms, keys, k, |keys|) && j <= |ms|
    requires (j > 0 ==> ms[j - 1] < i) && (j < |ms| ==> i < ms[j]) && i < |keys|
    ensures keys[i] != k
  {
    assert keys[i] == k ==> Covered(ms, i);
  }

  lemma {:induction false} AllMembersMass<K>(w: seq<real>, ms: seq<nat>, keys: seq<K>, k: K)
    requires |w| == |keys| && Members(ms, keys, k, |keys|)
    ensures KeyMass(w, keys, k) == if |ms| == 0 then 0.0 else Mass(w, keys, k, ms[|ms| - 1] + 1)
  {
    var from := if |ms| == 0 then 0 else ms[|ms| - 1] + 1;
    forall i | from <= i < |keys| ensures keys[i] != k {
      NoneBetween(ms, keys, k, |ms|, i);
    }
    MassSkip(w, keys, k, from, |keys|);
  }

  method SumMembers<K>(weights: array<real>, ms: seq<nat>, ghost keys: seq<K>, ghost k: K) returns (s: real)
    requires weights.Length == |keys| && Members(ms, keys, k, |keys|)
    ensures s == KeyMass(weights[..], keys, k)
  {
    s := 0.0;
    ghost var w := weights[..];
    for j := 0 to |ms|
      invariant s == if j == 0 then 0.0 else Mass(w, keys, k, ms[j - 1] + 1)
    {
      MemberMass(w, ms, keys, k, j);
      s := s + weights[ms[j]];
    }
    AllMembersMass(w, ms, keys, k);
  }

  method ScaleMembers<K>(weights: array<real>, ms: seq<nat>, f: real, ghost keys: seq<K>, ghost k: K)
    requires weights.Length == |keys| && Members(ms, keys, k, |keys|)
    modifies weights
    ensures forall i | 0 <= i < |keys| :: weights[i] == if keys[i] == k then old(weights[i]) * f else old(weights[i])
  {
    for j := 0 to |ms|
      invariant forall a | 0 <= a < j :: weights[ms[a]] == old(weights[ms[a]]) * f
      invariant forall a | j <= a < |ms| :: weights[ms[a]] == old(weights[ms[a]])
      invariant forall i | 0 <= i < |keys| && keys[i] != k :: weights[i] == old(weights[i])
    {
      var v := weights[ms[j]] * f;
      weights[ms[j]] := v;
    }
    forall i | 0 <= i < |keys| && keys[i] == k ensures weights[i] == old(weights[i]) * f {
      assert Covered(ms, i);
      var j :| 0 <= j < |ms| && ms[j] == i;
    }
  }

  method SumWeights(weights: array<real>) returns (total: real)
    ensures total == Sum(weights[..])
  {
    total := 0.0;
    for i := 0 to weights.Length
      invariant total == Prefix(weights[..], i)
    {
      total := total + weights[i];
    }
  }

  /** The share of every key, visiting the keys in an arbitrary order. */
  method Simulate<K(==, !new)>(weights: array<real>, idx: map<K, seq<nat>>, total: real, ghost keys: seq<K>)
    returns (sim: map<K, real>)
    requires weights.Length == |keys| && Grouped(idx, keys, |keys|) && total != 0.0
    ensures sim.Keys == idx.Keys
    ensures forall k | k in idx :: sim[k] == Share(KeyMass(weights[..], keys, k), total)
  {
    hide Members, Mass;
    sim := map[];
    var todo := idx.Keys;
    while todo != {}
      invariant todo <= idx.Keys && sim.Keys == idx.Keys - todo
      invariant forall k | k in sim :: sim[k] == Share(KeyMass(weights[..], keys, k), total)
      decreases |todo|
    {
      var k :| k in todo;
      var s := SumMembers(weights, idx[k], keys, k);
      sim := sim[k := s / total * 100.0];
      todo := todo - {k};
    }
  }

  /** Scaling the groups in `todo` is all that is left to do. */
  ghost predicate Remaining<K(!new)>(now: seq<real>, w: seq<real>, keys: seq<K>, gain: K -> real, todo: set<K>) {
    && |now| == |w| == |keys|
    && forall i | 0 <= i < |w| :: now[i] == if keys[i] in todo then w[i] else w[i] * gain(keys[i])
  }

  lemma {:induction false} GroupSkipped<K(!new)>(now: seq<real>, w: seq<real>, keys: seq<K>, gain: K -> real,
                                                 todo: set<K>, k: K)
    requires Remaining(now, w, keys, gain, todo) && k in todo && gain(k) == 1.0
    ensures Remaining(now, w, keys, gain, todo - {k})
  {
  }

  lemma {:induction false} GroupScaled<K(!new)>(now: seq<real>, later: seq<real>, w: seq<real>, keys: seq<K>,
                                                gain: K -> real, todo: set<K>, k: K)
    requires Remaining(now, w, keys, gain, todo) && k in todo && |later| == |w|
    requires forall i | 0 <= i < |w| :: later[i] == if keys[i] == k then now[i] * gain(k) else now[i]
    ensures Remaining(later, w, keys, gain, todo - {k})
  {
  }

  ghost function Gain<K(!new)>(w: seq<real>, keys: seq<K>, target: map<K, real>): K -> real
    requires |w| == |keys| && Sum(w) != 0.0
  {
    k => FitGain(w, keys, target, k)
  }

  ghost function ExactaGain<K(!new)>(w: seq<real>, keys: seq<K>, share: real, factor: real): K -> real
    requires |w| == |keys| && Sum(w) != 0.0
  {
    k => NudgeGain(w, keys, share, factor, k)
  }

  lemma {:induction false} AllFitted<K(!new)>(now: seq<real>, w: seq<real>, keys: seq<K>, target: map<K, real>)
    requires |w| == |keys| && Sum(w) != 0.0 && Remaining(now, w, keys, Gain(w, keys, target), {})
    ensures now == Fitted(w, keys, target)
  {
    hide Sum, KeyMass;
    forall i | 0 <= i < |w| ensures now[i] == Fitted(w, keys, target)[i] {
      assert Gain(w, keys, target)(keys[i]) == FitGain(w, keys, target, keys[i]);
    }
  }

  lemma {:induction false} AllNudged<K(!new)>(now: seq<real>, w: seq<real>, keys: seq<K>, share: real, factor: real)
    requires |w| == |keys| && Sum(w) != 0.0 && Remaining(now, w, keys, ExactaGain(w, keys, share, factor), {})
    ensures now == Nudged(w, keys, share, factor)
  {
    hide Sum, KeyMass;
    forall i | 0 <= i < |w| ensures now[i] == Nudged(w, keys, share, factor)[i] {
      assert ExactaGain(w, keys, share, factor)(keys[i]) == NudgeGain(w, keys, share, factor, keys[i]);
    }
  }

  lemma {:induction false} GainIs<K(!new)>(w: seq<real>, keys: seq<K>, target: map<K, real>, k: K, s: real)
    requires |w| == |keys| && Sum(w) != 0.0 && s == Share(KeyMass(w, keys, k), Sum(w))
    ensures Gain(w, keys, target)(k) == if k !in target || s <= 0.0 then 1.0 else target[k] / s
  {
    hide Sum, KeyMass, Share;
  }

  lemma {:induction false} ExactaGainIs<K(!new)>(w: seq<real>, keys: seq<K>, share: real, factor: real, k: K, s: real)
    requires |w| == |keys| && Sum(w) != 0.0 && s == Share(KeyMass(w, keys, k), Sum(w))
    ensures ExactaGain(w, keys, share, factor)(k) == if s <= 0.0 then 1.0 else 1.0 + factor * (share / s - 1.0)
  {
    hide Sum, KeyMass, Share;
  }

  /** ipfStep: whatever order the map is walked in, the result is Fitted. */
  method IpfStep<K(==, !new)>(weights: array<real>, idx: map<K, seq<nat>>, target: map<K, real>, ghost keys: seq<K>)
    requires weights.Length == |keys| && Grouped(idx, keys, |keys|)
    modifies weights
    ensures weights[..] == Fitted(old(weights[..]), keys, target)
  {
    hide Members, Mass, KeyMass, Sum, Share, Remaining, Gain;
    ghost var w := weights[..];
    var total := SumWeights(weights);
    if total == 0.0 {
      return;
    }
    ghost var gain := Gain(w, keys, target);
    var sim := Simulate(weights, idx, total, keys);
    var todo := idx.Keys;
    NothingScaled(w, keys, gain, todo);
    while todo != {}
      invariant todo <= idx.Keys && Remaining(weights[..], w, keys, gain, todo)
      decreases |todo|
    {
      var k :| k in todo;
      ghost var now := weights[..];
      GainIs(w, keys, target, k, sim[k]);
      if k !in target || sim[k] <= 0.0 {
        GroupSkipped(now, w, keys, gain, todo, k);
        todo := todo - {k};
        continue;
      }
      ScaleMembers(weights, idx[k], target[k] / sim[k], keys, k);
      GroupScaled(now, weights[..], w, keys, gain, todo, k);
      todo := todo - {k};
    }
    AllFitted(weights[..], w, keys, target);
  }

  lemma {:induction false} NothingScaled<K(!new)>(w: seq<real>, keys: seq<K>, gain: K -> real, todo: set<K>)
    requires |w| == |keys| && forall i | 0 <= i < |keys| :: keys[i] in todo
    ensures Remaining(w, w, keys, gain, todo)
  {
  }

  /** ipfExactaStep, likewise. */
  method IpfExactaStep<K(==, !new)>(weights: array<real>, idx: map<K, seq<nat>>, targetExacta: real, factor: real,
                                    ghost keys: seq<K>)
    requires weights.Length == |keys| && Grouped(idx, keys, |keys|)
    modifies weights
    ensures weights[..] == Nudged(old(weights[..]), keys, targetExacta, factor)
  {
    hide Members, Mass, KeyMass, Sum, Share, Remaining, ExactaGain;
    ghost var w := weights[..];
    var total := SumWeights(weights);
    if total == 0.0 {
      return;
    }
    ghost var gain := ExactaGain(w, keys, targetExacta, factor);
    var sim := Simulate(weights, idx, total, keys);
    var todo := idx.Keys;
    NothingScaled(w, keys, gain, todo);
    while todo != {}
      invariant todo <= idx.Keys && Remaining(weights[..], w, keys, gain, todo)
      decreases |todo|
    {
      var k :| k in todo;
      ghost var now := weights[..];
      ExactaGainIs(w, keys, targetExacta, factor, k, sim[k]);
      if sim[k] <= 0.0 {
        GroupSkipped(now, w, keys, gain, todo, k);
        todo := todo - {k};
        continue;
      }
      var correction := targetExacta / sim[k];
      ScaleMembers(weights, idx[k], 1.0 + factor * (correction - 1.0), keys, k);
      GroupScaled(now, weights[..], w, keys, gain, todo, k);
      todo := todo - {k};
    }
    AllNudged(weights[..], w, keys, targetExacta, factor);
  }
}
