/** Competitor names: the draw of a round's names (internal/racegen/generators/competitors.go) and
    the cooldown that keeps recent names out of it (internal/racegen/generators/cooldown.go). */
module Cooldown {
  import opened Arithmetic
  import opened Basics

  // ---------- the ring ----------

  /** A name already cooling keeps its place; otherwise the oldest makes room when the ring is full. */
  function AddName(queue: seq<string>, capacity: Pos, name: string): seq<string> {
    if name in queue then queue
    else (if |queue| >= capacity then queue[1..] else queue) + [name]
  }

  function AddAll(queue: seq<string>, capacity: Pos, names: seq<string>): seq<string> {
    if |names| == 0 then queue
    else AddName(AddAll(queue, capacity, names[..|names| - 1]), capacity, names[|names| - 1])
  }

  function Elements(s: seq<string>): set<string> {
    set x | x in s
  }

  class NameCooldown {
    var set_: set<string>
    var queue: seq<string>
    const capacity: Pos

    ghost predicate Valid()
      reads this
    {
      set_ == Elements(queue) && Distinct(queue) && |queue| <= capacity
    }

    constructor (capacity: int)
      ensures Valid() && queue == []
      ensures this.capacity == if capacity <= 0 then 1 else capacity
    {
      this.capacity := if capacity <= 0 then 1 else capacity;
      set_, queue := {}, [];
    }

    method Add(name: string)
      requires Valid()
      modifies this
      ensures Valid() && queue == AddName(old(queue), capacity, name)
    {
      if name in set_ {
        return;
      }
      if |queue| >= capacity {
        var oldest := queue[0];
        queue := queue[1..];
        set_ := set_ - {oldest};
      }
      queue := queue + [name];
      set_ := set_ + {name};
    }

    method Excludes() returns (names: set<string>)
      requires Valid()
      ensures names == Elements(queue)
    {
      names := set_;
    }

    /** The bookkeeping after a round: its names are added in the order the competitor map happens to
        be iterated in, which is returned. */
    method Remember(names: seq<string>) returns (visited: seq<string>)
      requires Valid()
      modifies this
      ensures Valid() && queue == AddAll(old(queue), capacity, visited)
      ensures multiset(visited) == multiset(names)
    {
      hide AddName, AddAll, Elements, Distinct;
      visited := [];
      AddAllNone(queue, capacity);
      var left := names;
      while left != []
        invariant Valid() && queue == AddAll(old(queue), capacity, visited)
        invariant multiset(visited) + multiset(left) == multiset(names)
        decreases |left|
      {
        var i :| 0 <= i < |left|;
        Add(left[i]);
        AddAllStep(old(queue), capacity, visited, left[i]);
        WithoutMultiset(left, i);
        visited, left := visited + [left[i]], Without(left, i);
      }
    }
  }

  lemma {:induction false} AddAllNone(queue: seq<string>, capacity: Pos)
    ensures AddAll(queue, capacity, []) == queue
  {
  }

  lemma {:induction false} AddAllStep(queue: seq<string>, capacity: Pos, names: seq<string>, name: string)
    ensures AddAll(queue, capacity, names + [name]) == AddName(AddAll(queue, capacity, names), capacity, name)
  {
    assert (names + [name])[..|names|] == names;
  }

  // ---------- the draw of a round's names ----------

  function Filtered(pool: seq<string>, excludes: set<string>): seq<string> {
    if |pool| == 0 then [] else
      var x := pool[|pool| - 1];
      Filtered(pool[..|pool| - 1], excludes) + if x in excludes then [] else [x]
  }

  /** The pool without the excluded names, unless too few would remain. */
  function Available(pool: seq<string>, n: nat, excludes: set<string>): seq<string> {
    if excludes != {} && |Filtered(pool, excludes)| >= 2 * n then Filtered(pool, excludes) else pool
  }

  /** First occurrences, in order. */
  function Firsts(s: seq<string>): seq<string> {
    if |s| == 0 then [] else
      var r, x := Firsts(s[..|s| - 1]), s[|s| - 1];
      if x in r then r else r + [x]
  }

  ghost predicate Recurs(picks: nat -> nat, from: nat, i: nat) {
    exists k: nat :: from <= k && picks(k) == i
  }

  /** A stream of draws below `size` in which every value keeps coming up. */
  ghost predicate Fair(picks: nat -> nat, size: nat) {
    (forall k: nat :: picks(k) < size) && forall from: nat, i: nat | i < size :: Recurs(picks, from, i)
  }

  function Drawn(pool: seq<string>, picks: nat -> nat, k: nat): seq<string>
    requires forall j: nat :: picks(j) < |pool|
  {
    seq(k, j requires 0 <= j < k => pool[picks(j)])
  }

  /** Draws names until n different ones have come up: `names` are the first n different names of the
      stream, all of them available, and no draw beyond the last of them is made. */
  method GenerateNames(pool: seq<string>, n: nat, excludes: set<string>, picks: nat -> nat)
      returns (names: seq<string>, drawn: nat)
    requires Fair(picks, |Available(pool, n, excludes)|)
    requires |Elements(Available(pool, n, excludes))| >= n
    ensures |names| == n && Distinct(names)
    ensures forall i | 0 <= i < n :: names[i] in Available(pool, n, excludes)
    ensures names == Firsts(Drawn(Available(pool, n, excludes), picks, drawn))
    ensures n > 0 ==> drawn > 0 && |Firsts(Drawn(Available(pool, n, excludes), picks, drawn - 1))| == n - 1
  {
    hide Fair, Drawn, Firsts, Elements, Filtered, Available;
    NothingDrawn(Available(pool, n, excludes), picks);
    var available := pool;
    if excludes != {} {
      var filtered := FilterNames(pool, excludes);
      if |filtered| >= 2 * n {
        available := filtered;
      }
    }
    AvailableIs(pool, n, excludes);
    FairRange(picks, |available|);
    names, drawn := [], 0;
    for i := 0 to n
      invariant |names| == i
      invariant names == Firsts(Drawn(available, picks, drawn))
      invariant i > 0 ==> drawn > 0 && |Firsts(Drawn(available, picks, drawn - 1))| == i - 1
    {
      var name;
      name, drawn := NextName(available, names, picks, drawn);
      DrawnStep(available, picks, drawn - 1);
      names := names + [name];
    }
    FirstsOfDraw(available, picks, drawn);
  }

  lemma {:induction false} AvailableIs(pool: seq<string>, n: nat, excludes: set<string>)
    ensures Available(pool, n, excludes) ==
            if excludes != {} && |Filtered(pool, excludes)| >= 2 * n then Filtered(pool, excludes) else pool
  {
  }

  /** The first occurrences are all different, and names of the pool. */
  lemma {:induction false} FirstsOfDraw(available: seq<string>, picks: nat -> nat, k: nat)
    requires forall j: nat :: picks(j) < |available|
    ensures var names := Firsts(Drawn(available, picks, k));
            Distinct(names) && forall i | 0 <= i < |names| :: names[i] in available
  {
    hide Firsts;
    var s := Drawn(available, picks, k);
    FirstsAre(s);
    forall i | 0 <= i < |Firsts(s)| ensures Firsts(s)[i] in available {
      var x := Firsts(s)[i];
      assert x in s;
      var j :| 0 <= j < |s| && s[j] == x;
      assert available[picks(j)] == x;
    }
  }

  /** Draws until a name that is not yet used comes up. */
  method NextName(available: seq<string>, names: seq<string>, picks: nat -> nat, from: nat)
      returns (name: string, drawn: nat)
    requires Fair(picks, |available|) && |names| < |Elements(available)|
    requires forall k: nat :: picks(k) < |available|
    requires names == Firsts(Drawn(available, picks, from))
    ensures drawn > from && name == available[picks(drawn - 1)] && name !in names
    ensures Firsts(Drawn(available, picks, drawn - 1)) == names
  {
    hide Fair, Drawn, Firsts, Elements;
    ghost var stop := NewNameAhead(available, names, picks, from);
    name := available[picks(from)];
    drawn := from + 1;
    while name in names
      invariant from < drawn <= stop + 1 && name == available[picks(drawn - 1)]
      invariant Firsts(Drawn(available, picks, drawn - 1)) == names
      decreases stop + 1 - drawn
    {
      DrawnStep(available, picks, drawn - 1);
      name := available[picks(drawn)];
      drawn := drawn + 1;
    }
  }

  method FilterNames(pool: seq<string>, excludes: set<string>) returns (filtered: seq<string>)
    ensures filtered == Filtered(pool, excludes)
  {
    filtered := [];
    for i := 0 to |pool|
      invariant filtered == Filtered(pool[..i], excludes)
    {
      assert pool[..i + 1][..i] == pool[..i];
      if pool[i] !in excludes {
        filtered := filtered + [pool[i]];
      }
    }
    assert pool[..|pool|] == pool;
  }

  lemma {:induction false} FairRange(picks: nat -> nat, size: nat)
    requires Fair(picks, size)
    ensures forall k: nat :: picks(k) < size
  {
  }

  lemma {:induction false} NothingDrawn(pool: seq<string>, picks: nat -> nat)
    requires Fair(picks, |pool|)
    ensures (forall j: nat :: picks(j) < |pool|) && Firsts(Drawn(pool, picks, 0)) == []
  {
  }

  lemma {:induction false} DrawnStep(pool: seq<string>, picks: nat -> nat, k: nat)
    requires forall j: nat :: picks(j) < |pool|
    ensures Drawn(pool, picks, k + 1) == Drawn(pool, picks, k) + [pool[picks(k)]]
    ensures var r := Firsts(Drawn(pool, picks, k));
            Firsts(Drawn(pool, picks, k + 1)) == if pool[picks(k)] in r then r else r + [pool[picks(k)]]
  {
    assert Drawn(pool, picks, k + 1)[..k] == Drawn(pool, picks, k);
  }

  lemma {:induction false} ElementsCount(s: seq<string>)
    ensures |Elements(s)| <= |s|
  {
    if |s| == 0 {
      assert Elements(s) == {};
    } else {
      ElementsCount(s[..|s| - 1]);
      assert s == s[..|s| - 1] + [s[|s| - 1]];
      ElementsAppend(s[..|s| - 1], s[|s| - 1]);
    }
  }

  lemma {:induction false} Smaller(a: set<string>, b: set<string>)
    requires a <= b
    ensures |a| <= |b|
  {
    if a != {} {
      var x :| x in a;
      Smaller(a - {x}, b - {x});
    }
  }

  /** While fewer names are used than are available, the stream brings up an unused one. */
  ghost method NewNameAhead(pool: seq<string>, used: seq<string>, picks: nat -> nat, from: nat) returns (k: nat)
    requires Fair(picks, |pool|) && |used| < |Elements(pool)|
    ensures picks(k) < |pool|
    ensures from <= k && pool[picks(k)] !in used
  {
    ElementsCount(used);
    if Elements(pool) <= Elements(used) {
      Smaller(Elements(pool), Elements(used));
    }
    var x :| x in Elements(pool) && x !in Elements(used);
    var i: nat :| i < |pool| && pool[i] == x;
    assert Recurs(picks, from, i);
    k :| from <= k && picks(k) == i;
  }

  // ---------- many rounds ----------

  /** The ring after the given rounds, each listed in the order its names were added. */
  function QueueAfter(n: Pos, rounds: seq<seq<string>>): seq<string> {
    if |rounds| == 0 then [] else AddAll(QueueAfter(n, rounds[..|rounds| - 1]), 10 * n, rounds[|rounds| - 1])
  }

  /** What the draw guarantees of a round's names, in whatever order they are listed. */
  ghost predicate RoundOk(pool: seq<string>, n: nat, queue: seq<string>, round: seq<string>) {
    |round| == n && Distinct(round) && forall p | 0 <= p < n :: round[p] in Available(pool, n, Elements(queue))
  }

  /** Rounds that reached the bookkeeping, one after the other. */
  ghost predicate Bookkept(pool: seq<string>, n: Pos, rounds: seq<seq<string>>) {
    |rounds| == 0 ||
    (Bookkept(pool, n, rounds[..|rounds| - 1]) &&
     RoundOk(pool, n, QueueAfter(n, rounds[..|rounds| - 1]), rounds[|rounds| - 1]))
  }

  /** What a call of the draw may return: the first n different names of a stream, cut off at the last of them. */
  ghost predicate DrawnBy(available: seq<string>, n: nat, picks: nat -> nat, drawn: nat, names: seq<string>) {
    && Fair(picks, |available|) && |names| == n && names == Firsts(Drawn(available, picks, drawn))
    && (n > 0 ==> drawn > 0 && |Firsts(Drawn(available, picks, drawn - 1))| == n - 1)
  }

  /** A round drawn from some stream, its names listed in any order. */
  ghost predicate RoundDrawn(pool: seq<string>, n: nat, queue: seq<string>, round: seq<string>) {
    exists picks, drawn, names ::
      DrawnBy(Available(pool, n, Elements(queue)), n, picks, drawn, names) && multiset(round) == multiset(names)
  }

  /** Round after round drawn from some stream, its names added to the ring in any order. */
  ghost predicate Produced(pool: seq<string>, n: Pos, rounds: seq<seq<string>>) {
    |rounds| == 0 ||
    (Produced(pool, n, rounds[..|rounds| - 1]) &&
     RoundDrawn(pool, n, QueueAfter(n, rounds[..|rounds| - 1]), rounds[|rounds| - 1]))
  }

  lemma {:induction false} FirstsAre(s: seq<string>)
    ensures Distinct(Firsts(s)) && forall i | 0 <= i < |Firsts(s)| :: Firsts(s)[i] in s
  {
    if |s| > 0 {
      FirstsAre(s[..|s| - 1]);
      assert s == s[..|s| - 1] + [s[|s| - 1]];
    }
  }

  lemma {:induction false} FirstsOfDistinct(s: seq<string>)
    requires Distinct(s)
    ensures Firsts(s) == s
  {
    if |s| > 0 {
      var m := |s| - 1;
      FirstsOfDistinct(s[..m]);
      assert s == s[..m] + [s[m]];
    }
  }

  /** A stream that begins with the given picks and then goes round and round. */
  lemma {:induction false} FairAfter(first: seq<nat>, size: Pos) returns (picks: nat -> nat)
    requires forall i | 0 <= i < |first| :: first[i] < size
    ensures Fair(picks, size) && forall i | 0 <= i < |first| :: picks(i) == first[i]
  {
    picks := (k: nat) => if k < |first| then first[k] else k % size;
    forall from: nat, i: nat | i < size ensures Recurs(picks, from, i) {
      var k := ComesRound(size, from + |first|, i);
      assert picks(k) == i;
    }
  }

  lemma {:induction false} ComesRound(size: Pos, from: nat, i: nat) returns (k: nat)
    requires i < size
    ensures k >= from && k % size == i
  {
    k := from * size + i;
    MulMonotone(1, size, from);
    DivModUnique(k, from, size, i);
  }

  /** Every round that the guarantees allow is drawn by some stream. */
  lemma {:induction false} RoundIsDrawn(pool: seq<string>, n: Pos, queue: seq<string>, round: seq<string>)
      returns (picks: nat -> nat)
    requires RoundOk(pool, n, queue, round)
    ensures DrawnBy(Available(pool, n, Elements(queue)), n, picks, n, round)
  {
    hide Available, Elements, Fair, Firsts;
    var available := Available(pool, n, Elements(queue));
    assert round[0] in available;
    var first := Indices(available, round);
    picks := FairAfter(first, |available|);
    FairRange(picks, |available|);
    assert Drawn(available, picks, n) == round;
    assert Drawn(available, picks, n - 1) == round[..n - 1];
    FirstsOfDistinct(round);
    FirstsOfDistinct(round[..n - 1]);
  }

  function Indices(available: seq<string>, round: seq<string>): (r: seq<nat>)
    requires forall p | 0 <= p < |round| :: round[p] in available
    ensures |r| == |round| && forall p | 0 <= p < |r| :: r[p] < |available| && available[r[p]] == round[p]
  {
    seq(|round|, p requires 0 <= p < |round| => IndexOf(available, round[p]))
  }

  /** Conversely, every drawn round meets them. */
  lemma {:induction false} DrawnIsOk(pool: seq<string>, n: nat, queue: seq<string>, picks: nat -> nat, drawn: nat,
                                     names: seq<string>)
    requires DrawnBy(Available(pool, n, Elements(queue)), n, picks, drawn, names)
    ensures RoundOk(pool, n, queue, names)
  {
    hide Available, Elements, Firsts;
    FirstsOfDraw(Available(pool, n, Elements(queue)), picks, drawn);
  }

  lemma {:induction false} RoundOkExactlyWhenDrawn(pool: seq<string>, n: Pos, queue: seq<string>, round: seq<string>)
    ensures RoundOk(pool, n, queue, round) <==> RoundDrawn(pool, n, queue, round)
  {
    hide RoundOk, DrawnBy, Available, Elements;
    if RoundOk(pool, n, queue, round) {
      var picks := RoundIsDrawn(pool, n, queue, round);
    }
    if RoundDrawn(pool, n, queue, round) {
      var picks, drawn, names :|
        DrawnBy(Available(pool, n, Elements(queue)), n, picks, drawn, names) && multiset(round) == multiset(names);
      DrawnIsOk(pool, n, queue, picks, drawn, names);
      AnyOrder(pool, n, queue, names, round);
    }
  }

  /** The runs that the guarantees allow are exactly those that streams of draws produce. */
  lemma {:induction false} BookkeptExactlyWhenProduced(pool: seq<string>, n: Pos, rounds: seq<seq<string>>)
    ensures Bookkept(pool, n, rounds) <==> Produced(pool, n, rounds)
  {
    hide RoundOk, RoundDrawn, QueueAfter;
    if |rounds| > 0 {
      var before := rounds[..|rounds| - 1];
      BookkeptExactlyWhenProduced(pool, n, before);
      RoundOkExactlyWhenDrawn(pool, n, QueueAfter(n, before), rounds[|rounds| - 1]);
    }
  }

  /** A stream determines the round and how many draws it takes. */
  lemma {:induction false} DrawDetermined(available: seq<string>, n: nat, picks: nat -> nat, k: nat, l: nat,
                                          a: seq<string>, b: seq<string>)
    requires n > 0 && DrawnBy(available, n, picks, k, a) && DrawnBy(available, n, picks, l, b)
    ensures k == l && a == b
  {
    hide Fair, Firsts, Drawn;
    FairRange(picks, |available|);
    if k < l {
      FirstsGrow(available, picks, k, l - 1);
    } else if l < k {
      FirstsGrow(available, picks, l, k - 1);
    }
  }

  lemma {:induction false} FirstsGrow(available: seq<string>, picks: nat -> nat, k: nat, l: nat)
    requires k <= l && forall j: nat :: picks(j) < |available|
    ensures |Firsts(Drawn(available, picks, k))| <= |Firsts(Drawn(available, picks, l))|
    decreases l
  {
    hide Drawn, Firsts;
    if k < l {
      FirstsGrow(available, picks, k, l - 1);
      DrawnStep(available, picks, l - 1);
    }
  }

  /** A drawn round is such a round, and listing its names in another order leaves it one. */
  lemma {:induction false} AnyOrder(pool: seq<string>, n: nat, queue: seq<string>, names: seq<string>,
      visited: seq<string>)
    requires RoundOk(pool, n, queue, names) && multiset(visited) == multiset(names)
    ensures RoundOk(pool, n, queue, visited)
  {
    hide Available, Elements;
    RearrangedDistinct(names, visited);
    forall p | 0 <= p < n ensures visited[p] in Available(pool, n, Elements(queue)) {
      assert visited[p] in names;
    }
  }

  ghost predicate Disjoint(a: seq<string>, b: seq<string>) {
    forall p, q | 0 <= p < |a| && 0 <= q < |b| :: a[p] != b[q]
  }

  /** Names that are new to the ring push the oldest out, one by one. */
  lemma {:induction false} FreshNames(queue: seq<string>, capacity: Pos, names: seq<string>)
    requires |queue| <= capacity && |names| <= capacity
    requires Distinct(names) && Disjoint(queue, names)
    ensures AddAll(queue, capacity, names) ==
            (queue + names)[if |queue| + |names| > capacity then |queue| + |names| - capacity else 0..]
  {
    if |names| == 0 {
      assert queue + names == queue;
    } else {
      var m := |names| - 1;
      FreshNames(queue, capacity, names[..m]);
      var q, x := AddAll(queue, capacity, names[..m]), names[m];
      var d := if |queue| + m > capacity then |queue| + m - capacity else 0;
      assert q == (queue + names[..m])[d..];
      NotAmong(queue, names[..m], d, x);
      assert queue + names == (queue + names[..m]) + [x];
      var d1 := if |queue| + |names| > capacity then |queue| + |names| - capacity else 0;
      DropMore(queue + names[..m], d, d1, x);
    }
  }

  lemma {:induction false} DropMore(s: seq<string>, d: nat, d1: nat, x: string)
    requires d <= d1 <= |s|
    ensures s[d..][d1 - d..] + [x] == (s + [x])[d1..]
  {
  }

  lemma {:induction false} NotAmong(a: seq<string>, b: seq<string>, d: nat, x: string)
    requires d <= |a| + |b|
    requires (forall p | 0 <= p < |a| :: a[p] != x) && (forall p | 0 <= p < |b| :: b[p] != x)
    ensures x !in (a + b)[d..]
  {
  }

  function Flat(rounds: seq<seq<string>>): seq<string> {
    if |rounds| == 0 then [] else Flat(rounds[..|rounds| - 1]) + rounds[|rounds| - 1]
  }

  lemma {:induction false} FlatLength(rounds: seq<seq<string>>, n: nat)
    requires forall r | 0 <= r < |rounds| :: |rounds[r]| == n
    ensures |Flat(rounds)| == |rounds| * n
  {
    if |rounds| > 0 {
      FlatLength(rounds[..|rounds| - 1], n);
    }
  }

  lemma {:induction false} FlatHead(rounds: seq<seq<string>>)
    requires |rounds| > 0
    ensures Flat(rounds) == rounds[0] + Flat(rounds[1..])
  {
    if |rounds| > 1 {
      var m := |rounds| - 1;
      FlatHead(rounds[..m]);
      assert rounds[..m][1..] == rounds[1..][..m - 1];
    }
  }

  lemma {:induction false} InFlat(rounds: seq<seq<string>>, r: nat, p: nat) returns (k: nat)
    requires r < |rounds| && p < |rounds[r]|
    ensures k < |Flat(rounds)| && Flat(rounds)[k] == rounds[r][p]
  {
    var m := |rounds| - 1;
    if r < m {
      k := InFlat(rounds[..m], r, p);
    } else {
      k := |Flat(rounds[..m])| + p;
    }
  }

  function LastTen(rounds: seq<seq<string>>): seq<seq<string>> {
    rounds[if |rounds| > 10 then |rounds| - 10 else 0..]
  }

  lemma {:induction false} FilteredCount(pool: seq<string>, excludes: set<string>)
    ensures |Elements(pool)| <= |Elements(Filtered(pool, excludes))| + |excludes|
    ensures forall x | x in Filtered(pool, excludes) :: x !in excludes
  {
    FilteredElements(pool, excludes);
    var f := Elements(Filtered(pool, excludes));
    Smaller(Elements(pool), f + excludes);
    assert |f + excludes| <= |f| + |excludes| by {
      assert |f + excludes| == |f| + |excludes| - |f * excludes|;
    }
    forall x | x in Filtered(pool, excludes) ensures x !in excludes {
      assert x in f;
      assert x in excludes ==> x in f * excludes;
    }
  }

  lemma {:induction false} ElementsAppend(s: seq<string>, x: string)
    ensures Elements(s + [x]) == Elements(s) + {x}
  {
  }

  lemma {:induction false} FilteredElements(pool: seq<string>, excludes: set<string>)
    ensures Elements(pool) <= Elements(Filtered(pool, excludes)) + excludes
    ensures Elements(Filtered(pool, excludes)) * excludes == {}
  {
    if |pool| == 0 {
      assert Elements(pool) == {} && Filtered(pool, excludes) == [];
    } else {
      var init, x := pool[..|pool| - 1], pool[|pool| - 1];
      FilteredElements(init, excludes);
      assert pool == init + [x];
      ElementsAppend(init, x);
      ElementsAppend(Filtered(init, excludes), x);
    }
  }

  /** With enough names in the pool the fallback is never taken: no drawn name is still cooling. */
  lemma {:induction false} NoneCooling(pool: seq<string>, n: Pos, queue: seq<string>, round: seq<string>)
    requires |Elements(pool)| >= 12 * n && |queue| <= 10 * n
    requires RoundOk(pool, n, queue, round)
    ensures Disjoint(queue, round)
  {
    var excludes := Elements(queue);
    ElementsCount(queue);
    FilteredCount(pool, excludes);
    ElementsCount(Filtered(pool, excludes));
    forall p, q | 0 <= p < |queue| && 0 <= q < |round| ensures queue[p] != round[q] {
      assert queue[p] in excludes;
    }
  }

  /** At each round boundary the ring holds exactly the names of the last ten rounds. */
  lemma {:induction false} RingIsLastTenRounds(pool: seq<string>, n: Pos, rounds: seq<seq<string>>)
    requires |Elements(pool)| >= 12 * n && Bookkept(pool, n, rounds)
    ensures forall r | 0 <= r < |rounds| :: |rounds[r]| == n && Distinct(rounds[r])
    ensures QueueAfter(n, rounds) == Flat(LastTen(rounds))
    ensures |QueueAfter(n, rounds)| <= 10 * n
    decreases |rounds|
  {
    hide Available, Elements, AddAll, Disjoint, Flat, LastTen, Distinct;
    if |rounds| > 0 {
      var m := |rounds| - 1;
      var before, round := rounds[..m], rounds[m];
      RingIsLastTenRounds(pool, n, before);
      assert forall r | 0 <= r < m :: rounds[r] == before[r];
      var queue := QueueAfter(n, before);
      NoneCooling(pool, n, queue, round);
      FreshNames(queue, 10 * n, round);
      RingTurns(n, rounds);
    } else {
      NoRounds();
    }
  }

  lemma {:induction false} NoRounds()
    ensures Flat(LastTen([])) == []
  {
  }

  /** What the last ten rounds have in all, and what one more round makes of it. */
  lemma {:induction false} RingTurns(n: Pos, rounds: seq<seq<string>>)
    requires |rounds| > 0 && forall r | 0 <= r < |rounds| :: |rounds[r]| == n
    ensures var queue, round := Flat(LastTen(rounds[..|rounds| - 1])), rounds[|rounds| - 1];
            && Flat(LastTen(rounds)) ==
                 (queue + round)[if |queue| + |round| > 10 * n then |queue| + |round| - 10 * n else 0..]
            && |queue| <= 10 * n && |Flat(LastTen(rounds))| <= 10 * n
  {
    hide Flat;
    var m := |rounds| - 1;
    var ten, round := LastTen(rounds[..m]), rounds[m];
    FlatLength(ten, n);
    TenLength(|ten|, n);
    FlatNext(ten, round);
    if |ten| == 10 {
      FlatHead(ten + [round]);
      assert LastTen(rounds) == (ten + [round])[1..];
      assert (ten + [round])[0] == ten[0];
    } else {
      assert LastTen(rounds) == ten + [round];
    }
    FlatLength(LastTen(rounds), n);
    TenLength(|LastTen(rounds)|, n);
  }

  lemma {:induction false} FlatNext(rounds: seq<seq<string>>, round: seq<string>)
    ensures Flat(rounds + [round]) == Flat(rounds) + round
  {
    assert (rounds + [round])[..|rounds|] == rounds;
  }

  lemma {:induction false} TenLength(k: nat, n: nat)
    requires k <= 10
    ensures k * n <= 10 * n && (k < 10 ==> k * n + n <= 10 * n)
  {
  }

  /** No name comes back within eleven rounds. */
  ghost predicate WindowDisjoint(rounds: seq<seq<string>>) {
    forall i, j | 0 <= i < j < |rounds| && j <= i + 10 :: Disjoint(rounds[i], rounds[j])
  }

  lemma {:induction false} BookkeptPrefix(pool: seq<string>, n: Pos, rounds: seq<seq<string>>, k: nat)
    requires Bookkept(pool, n, rounds) && k < |rounds|
    ensures Bookkept(pool, n, rounds[..k]) && RoundOk(pool, n, QueueAfter(n, rounds[..k]), rounds[k])
    decreases |rounds|
  {
    hide RoundOk, QueueAfter;
    if k < |rounds| - 1 {
      BookkeptPrefix(pool, n, rounds[..|rounds| - 1], k);
      assert rounds[..|rounds| - 1][..k] == rounds[..k];
    }
  }

  lemma {:induction false} ElevenRoundsDisjoint(pool: seq<string>, n: Pos, rounds: seq<seq<string>>)
    requires |Elements(pool)| >= 12 * n && Bookkept(pool, n, rounds)
    ensures WindowDisjoint(rounds)
  {
    hide Available, Elements, Bookkept, QueueAfter, Flat;
    forall i, j | 0 <= i < j < |rounds| && j <= i + 10 ensures Disjoint(rounds[i], rounds[j]) {
      BookkeptPrefix(pool, n, rounds, j);
      RingIsLastTenRounds(pool, n, rounds[..j]);
      NoneCooling(pool, n, QueueAfter(n, rounds[..j]), rounds[j]);
      var ten := LastTen(rounds[..j]);
      forall p, q | 0 <= p < |rounds[i]| && 0 <= q < |rounds[j]| ensures rounds[i][p] != rounds[j][q] {
        var r := i - (j - |ten|);
        assert ten[r] == rounds[i];
        var k := InFlat(ten, r, p);
      }
    }
  }

  // ---------- smaller pools ----------

  /** In a pool without repeats, excluding the first names leaves the others. */
  lemma {:induction false} FilteredSuffix(pool: seq<string>, excludes: set<string>, m: nat)
    requires Distinct(pool) && m <= |pool| && excludes == Elements(pool[..m])
    ensures Filtered(pool, excludes) == pool[m..]
  {
    FilteredFrom(pool, excludes, m, |pool|);
    assert pool[..|pool|] == pool;
  }

  lemma {:induction false} FilteredFrom(pool: seq<string>, excludes: set<string>, m: nat, k: nat)
    requires Distinct(pool) && m <= |pool| && k <= |pool| && excludes == Elements(pool[..m])
    ensures Filtered(pool[..k], excludes) == if k <= m then [] else pool[m..k]
  {
    hide Filtered, Elements, Distinct;
    FilteredNext(pool, excludes, k);
    if k > 0 {
      FilteredFrom(pool, excludes, m, k - 1);
      AmongFirst(pool, m, k - 1);
      if k > m {
        assert pool[m..k] == pool[m..k - 1] + [pool[k - 1]];
      }
    }
  }

  lemma {:induction false} FilteredNext(pool: seq<string>, excludes: set<string>, k: nat)
    requires k <= |pool|
    ensures k == 0 ==> Filtered(pool[..k], excludes) == []
    ensures k > 0 ==> Filtered(pool[..k], excludes) ==
                        Filtered(pool[..k - 1], excludes) + if pool[k - 1] in excludes then [] else [pool[k - 1]]
  {
    if k > 0 {
      assert pool[..k][..k - 1] == pool[..k - 1];
    }
  }

  lemma {:induction false} AmongFirst(pool: seq<string>, m: nat, k: nat)
    requires Distinct(pool) && m <= |pool| && k < |pool|
    ensures pool[k] in Elements(pool[..m]) <==> k < m
  {
    if k < m {
      assert pool[k] == pool[..m][k];
    }
  }

  /** The pool's names dealt out in order, n to a round. */
  function Dealt(pool: seq<string>, n: nat, k: nat): seq<seq<string>>
    requires k * n <= |pool|
  {
    if k == 0 then [] else
      DealBounds(n, k);
      Dealt(pool, n, k - 1) + [pool[(k - 1) * n..k * n]]
  }

  lemma {:induction false} DealBounds(n: nat, k: nat)
    requires k > 0
    ensures 0 <= (k - 1) * n && (k - 1) * n + n == k * n
  {
  }

  lemma {:induction false} DealtBookkept(pool: seq<string>, n: Pos, k: nat)
    requires Distinct(pool) && k <= 10 && k * n <= |pool|
    requires k <= 1 || k * n + n <= |pool|
    ensures Bookkept(pool, n, Dealt(pool, n, k))
    ensures QueueAfter(n, Dealt(pool, n, k)) == pool[..k * n]
  {
    hide Available, AddAll, Elements;
    if k > 0 {
      DealBounds(n, k);
      DealtBookkept(pool, n, k - 1);
      var m := (k - 1) * n;
      var round := pool[m..m + n];
      DealNext(pool, n, m, round, k);
      assert Dealt(pool, n, k)[..|Dealt(pool, n, k)| - 1] == Dealt(pool, n, k - 1);
    }
  }

  lemma {:induction false} DealNext(pool: seq<string>, n: Pos, m: nat, round: seq<string>, k: nat)
    requires Distinct(pool) && 0 < k <= 10 && m == (k - 1) * n && m + n <= |pool| && round == pool[m..m + n]
    requires k == 1 || m + 2 * n <= |pool|
    ensures RoundOk(pool, n, pool[..m], round)
    ensures AddAll(pool[..m], 10 * n, round) == pool[..m + n]
  {
    hide AddAll, RoundOk;
    TenLength(k - 1, n);
    FreshNames(pool[..m], 10 * n, round);
    assert pool[..m] + round == pool[..m + n];
    DealtIsOk(pool, n, m, round);
  }

  lemma {:induction false} DealtIsOk(pool: seq<string>, n: Pos, m: nat, round: seq<string>)
    requires Distinct(pool) && m + n <= |pool| && round == pool[m..m + n]
    requires m == 0 || m + 2 * n <= |pool|
    ensures RoundOk(pool, n, pool[..m], round)
  {
    hide Filtered;
    FilteredSuffix(pool, Elements(pool[..m]), m);
    assert m == 0 ==> Elements(pool[..m]) == {};
    forall p | 0 <= p < n ensures round[p] in Available(pool, n, Elements(pool[..m])) {
      assert round[p] == pool[m + p] == pool[m..][p];
    }
  }

  /** A pool of fewer than 12 n names: dealing it out until fewer than 2 n names are not cooling makes
      the next round draw from the full pool, where the names of the first round may come up again. */
  lemma {:induction false} SmallPoolMayRepeat(pool: seq<string>, n: Pos) returns (rounds: seq<seq<string>>)
    requires Distinct(pool) && n <= |pool| < 12 * n
    ensures Produced(pool, n, rounds) && !WindowDisjoint(rounds)
  {
    hide Available, AddAll, Elements, QueueAfter, Produced;
    var k := RoundsUntilFallback(|pool|, n);
    var m := k * n;
    DealtBookkept(pool, n, k);
    var dealt := Dealt(pool, n, k);
    FirstDealt(pool, n, k);
    rounds := dealt + [pool[..n]];
    Fallback(pool, n, m, pool[..n]);
    assert rounds[..|rounds| - 1] == dealt;
    assert rounds[0][0] == rounds[k][0];
    assert !Disjoint(rounds[0], rounds[k]);
    BookkeptExactlyWhenProduced(pool, n, rounds);
  }

  lemma {:induction false} FirstDealt(pool: seq<string>, n: Pos, k: nat)
    requires k * n <= |pool|
    ensures |Dealt(pool, n, k)| == k && (k > 0 ==> n <= |pool| && Dealt(pool, n, k)[0] == pool[..n])
  {
    if k > 0 {
      DealBounds(n, k);
      FirstDealt(pool, n, k - 1);
    }
  }

  lemma {:induction false} Fallback(pool: seq<string>, n: Pos, m: nat, round: seq<string>)
    requires Distinct(pool) && m <= |pool| < m + 2 * n && n <= |pool| && round == pool[..n]
    ensures RoundOk(pool, n, pool[..m], round)
  {
    FilteredSuffix(pool, Elements(pool[..m]), m);
    forall p | 0 <= p < n ensures round[p] in Available(pool, n, Elements(pool[..m])) {
      assert round[p] == pool[p];
    }
  }

  lemma {:induction false} RoundsUntilFallback(size: nat, n: nat) returns (k: nat)
    requires 0 < n <= size < 12 * n
    ensures 1 <= k <= 10 && k * n <= size < k * n + 2 * n
    ensures k <= 1 || k * n + n <= size
  {
    if size < 3 * n { k := 1; }
    else if size < 4 * n { k := 2; }
    else if size < 5 * n { k := 3; }
    else if size < 6 * n { k := 4; }
    else if size < 7 * n { k := 5; }
    else if size < 8 * n { k := 6; }
    else if size < 9 * n { k := 7; }
    else if size < 10 * n { k := 8; }
    else if size < 11 * n { k := 9; }
    else { k := 10; }
  }

  /** For a pool without repeats: names never come back within eleven rounds exactly when the pool
      holds at least 12 n names. */
  lemma {:induction false} DisjointExactlyWhenPoolIsLarge(pool: seq<string>, n: Pos)
    requires Distinct(pool) && n <= |pool|
    ensures (forall rounds | Produced(pool, n, rounds) :: WindowDisjoint(rounds)) <==> |pool| >= 12 * n
  {
    hide Bookkept, Produced, WindowDisjoint;
    DistinctElements(pool);
    if |pool| >= 12 * n {
      forall rounds | Produced(pool, n, rounds) ensures WindowDisjoint(rounds) {
        BookkeptExactlyWhenProduced(pool, n, rounds);
        ElevenRoundsDisjoint(pool, n, rounds);
      }
    } else {
      var rounds := SmallPoolMayRepeat(pool, n);
    }
  }

  lemma {:induction false} DistinctElements(s: seq<string>)
    requires Distinct(s)
    ensures |Elements(s)| == |s|
  {
    if |s| == 0 {
      assert Elements(s) == {};
    } else {
      var init, x := s[..|s| - 1], s[|s| - 1];
      DistinctElements(init);
      assert s == init + [x];
      ElementsAppend(init, x);
      assert x !in Elements(init);
    }
  }
}
