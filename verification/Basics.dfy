/** Small shared vocabulary: prefix sums of weights, rearrangements, choices. */
module Basics {

  /** The sum of the first k weights: what an accumulator loop holds after k steps. */
  function Prefix(ws: seq<real>, k: nat): real
    requires k <= |ws|
  {
    if k == 0 then 0.0 else Prefix(ws, k - 1) + ws[k - 1]
  }

  function Sum(ws: seq<real>): real {
    Prefix(ws, |ws|)
  }

  ghost predicate AllPositive(ws: seq<real>) {
    forall i | 0 <= i < |ws| :: ws[i] > 0.0
  }

  ghost predicate AllNonnegative(ws: seq<real>) {
    forall i | 0 <= i < |ws| :: ws[i] >= 0.0
  }

  lemma {:induction false} PrefixAgree(a: seq<real>, b: seq<real>, k: nat)
    requires k <= |a| && k <= |b| && a[..k] == b[..k]
    ensures Prefix(a, k) == Prefix(b, k)
  {
    if k > 0 {
      assert a[..k - 1] == a[..k][..k - 1] == b[..k - 1];
      assert a[k - 1] == a[..k][k - 1] == b[k - 1];
      PrefixAgree(a, b, k - 1);
    }
  }

  lemma {:induction false} PrefixMonotone(ws: seq<real>, i: nat, j: nat)
    requires i <= j <= |ws| && AllNonnegative(ws)
    ensures Prefix(ws, i) <= Prefix(ws, j)
    decreases j
  {
    if i < j {
      PrefixMonotone(ws, i, j - 1);
    }
  }

  lemma {:induction false} PrefixNonnegative(ws: seq<real>, k: nat)
    requires k <= |ws| && AllNonnegative(ws)
    ensures Prefix(ws, k) >= 0.0
  {
    PrefixMonotone(ws, 0, k);
  }

  lemma {:induction false} SumNonnegative(ws: seq<real>)
    requires AllNonnegative(ws)
    ensures Sum(ws) >= 0.0
  {
    PrefixNonnegative(ws, |ws|);
  }

  lemma {:induction false} SumPositive(ws: seq<real>)
    requires |ws| > 0 && AllPositive(ws)
    ensures Sum(ws) > 0.0
  {
    PrefixNonnegative(ws, |ws| - 1);
  }

  lemma {:induction false} SumConcat(a: seq<real>, b: seq<real>)
    ensures Sum(a + b) == Sum(a) + Sum(b)
    decreases |b|
  {
    if |b| == 0 {
      assert a + b == a;
    } else {
      var m := |b| - 1;
      assert (a + b)[..|a| + m] == a + b[..m];
      PrefixAgree(a + b, a + b[..m], |a| + m);
      PrefixAgree(b, b[..m], m);
      SumConcat(a, b[..m]);
    }
  }

  lemma {:induction false} SumHead(ws: seq<real>)
    requires |ws| > 0
    ensures Sum(ws) == ws[0] + Sum(ws[1..])
  {
    assert ws == [ws[0]] + ws[1..];
    SumConcat([ws[0]], ws[1..]);
    assert Prefix([ws[0]], 1) == Prefix([ws[0]], 0) + ws[0];
  }

  /** Taking one weight out of the middle takes exactly that weight off the total. */
  lemma {:induction false} SumRemove(ws: seq<real>, i: nat)
    requires i < |ws|
    ensures Sum(ws) == ws[i] + Sum(ws[..i] + ws[i + 1..])
  {
    assert ws == ws[..i] + ws[i..];
    SumConcat(ws[..i], ws[i..]);
    SumHead(ws[i..]);
    assert ws[i..][1..] == ws[i + 1..];
    SumConcat(ws[..i], ws[i + 1..]);
  }

  function Scaled(c: real, ws: seq<real>): (r: seq<real>) {
    seq(|ws|, i requires 0 <= i < |ws| => c * ws[i])
  }

  lemma {:induction false} SumScaled(c: real, ws: seq<real>, k: nat)
    requires k <= |ws|
    ensures Prefix(Scaled(c, ws), k) == c * Prefix(ws, k)
  {
    if k > 0 {
      SumScaled(c, ws, k - 1);
    }
  }

  lemma {:induction false} ScaledTotal(c: real, ws: seq<real>)
    ensures Sum(Scaled(c, ws)) == c * Sum(ws)
  {
    SumScaled(c, ws, |ws|);
  }

  function PowReal(b: real, e: nat): real {
    if e == 0 then 1.0 else b * PowReal(b, e - 1)
  }

  lemma {:induction false} PowRealAdd(b: real, d: nat, e: nat)
    ensures PowReal(b, d + e) == PowReal(b, d) * PowReal(b, e)
  {
    if d > 0 {
      PowRealAdd(b, d - 1, e);
      assert PowReal(b, d + e) == b * PowReal(b, d - 1 + e);
    }
  }

  lemma {:induction false} PowRealPositive(b: real, e: nat)
    requires b > 0.0
    ensures PowReal(b, e) > 0.0
  {
    if e > 0 {
      PowRealPositive(b, e - 1);
    }
  }

  /** The integers from a up to, not including, b. */
  function IntRange(a: int, b: int): (r: set<int>)
    ensures forall k :: k in r <==> a <= k < b
    ensures |r| == if a <= b then b - a else 0
    decreases b - a
  {
    if a < b then IntRange(a, b - 1) + {b - 1} else {}
  }

  ghost predicate Distinct<T>(s: seq<T>) {
    forall i, j | 0 <= i < j < |s| :: s[i] != s[j]
  }

  /** A rearrangement of 0 .. |p|-1. */
  ghost predicate Permutation(p: seq<nat>) {
    Distinct(p) && forall i | 0 <= i < |p| :: p[i] < |p|
  }

  /** 0, 1, .. , n - 1. */
  function Iota(n: nat): (r: seq<nat>)
    ensures |r| == n
  {
    seq(n, i requires 0 <= i < n => i)
  }

  /** A choice among n things, then among n-1, and so on down to a choice among 2. */
  predicate Choices(n: nat, js: seq<nat>) {
    if n <= 1 then |js| == 0 else |js| > 0 && js[0] < n && Choices(n - 1, js[1..])
  }

  function IndexOf<T(==)>(s: seq<T>, x: T): (i: nat)
    requires x in s
    ensures i < |s| && s[i] == x && x !in s[..i]
  {
    if s[0] == x then 0 else
      assert s == [s[0]] + s[1..];
      var i := 1 + IndexOf(s[1..], x);
      assert s[..i] == [s[0]] + s[1..][..i - 1];
      i
  }

  function Without<T>(s: seq<T>, i: nat): (r: seq<T>)
    requires i < |s|
    ensures |r| == |s| - 1
  {
    s[..i] + s[i + 1..]
  }

  lemma {:induction false} WithoutMultiset<T>(s: seq<T>, i: nat)
    requires i < |s|
    ensures multiset(s) == multiset(Without(s, i)) + multiset{s[i]}
  {
    assert s == s[..i] + [s[i]] + s[i + 1..];
  }

  lemma {:induction false} WithoutDistinct<T>(s: seq<T>, i: nat)
    requires i < |s| && Distinct(s)
    ensures Distinct(Without(s, i)) && s[i] !in Without(s, i)
    ensures forall x | x in s && x != s[i] :: x in Without(s, i)
  {
    forall x | x in s && x != s[i] ensures x in Without(s, i) {
      var k :| 0 <= k < |s| && s[k] == x;
      assert x == Without(s, i)[if k < i then k else k - 1];
    }
  }

  /** A rearrangement of a sequence without repeats has no repeats either. */
  lemma {:induction false} RearrangedDistinct<T>(s: seq<T>, p: seq<T>)
    requires Distinct(s) && multiset(s) == multiset(p)
    ensures Distinct(p) && |p| == |s|
    ensures forall x :: x in p <==> x in s
  {
    assert |multiset(s)| == |s| && |multiset(p)| == |p|;
    forall x ensures x in p <==> x in s {
      assert x in p <==> x in multiset(p);
      assert x in s <==> x in multiset(s);
    }
    forall i, j | 0 <= i < j < |p| ensures p[i] != p[j] {
      if p[i] == p[j] {
        assert p == p[..i] + [p[i]] + p[i + 1..];
        assert p[j] == p[i + 1..][j - i - 1];
        assert p[j] in p[i + 1..];
        assert multiset(p)[p[i]] >= 2;
        DistinctOnce(s, p[i]);
      }
    }
  }

  lemma {:induction false} DistinctOnce<T>(s: seq<T>, x: T)
    requires Distinct(s)
    ensures multiset(s)[x] <= 1
  {
    if |s| > 0 {
      assert s == [s[0]] + s[1..];
      DistinctOnce(s[1..], x);
      if x == s[0] {
        assert x !in s[1..];
        assert x !in multiset(s[1..]);
      }
    }
  }
}
