/** The in-place generator of internal/racegen/rng/mt19937.go, as an unbounded recurrence. */
module Mt19937 {

  const N: nat := 624
  const M: nat := 397
  const MATRIX_A: bv32 := 0x9908_b0df
  const UPPER_MASK: bv32 := 0x8000_0000
  const LOWER_MASK: bv32 := 0x7fff_ffff
  const COUNTER_SPAN: nat := 0x1_0000_0000_0000_0000

  // ---------- the recurrence ----------

  /** The seeding rule: word i from the word before it. */
  function SeedStep(prev: bv32, i: nat): bv32
    requires i < N
  {
    1812433253 * (prev ^ (prev >> 30)) + i as bv32
  }

  function SeedWord(seed: bv32, i: nat): bv32
    requires i < N
  {
    if i == 0 then seed else SeedStep(SeedWord(seed, i - 1), i)
  }

  /** How the upper bit of one word and the lower bits of the next are mixed. */
  function Mixed(upper: bv32, lower: bv32): bv32 {
    var x := (upper & UPPER_MASK) | (lower & LOWER_MASK);
    var xa := x >> 1;
    if x & 1 != 0 then xa ^ MATRIX_A else xa
  }

  function Twisted(far: bv32, upper: bv32, lower: bv32): bv32 {
    far ^ Mixed(upper, lower)
  }

  /** X(k+624) = X(k+397) xor Mixed(X(k), X(k+1)), started from the first 624 words. */
  function X(start: seq<bv32>, k: nat): bv32
    requires |start| == N
  {
    if k < N then start[k] else Twisted(X(start, k - N + M), X(start, k - N), X(start, k - N + 1))
  }

  lemma {:induction false} XFirst(start: seq<bv32>, k: nat)
    requires |start| == N && k < N
    ensures X(start, k) == start[k]
  {
    hide Twisted;
  }

  lemma {:induction false} XNext(start: seq<bv32>, k: nat)
    requires |start| == N
    ensures X(start, k + N) == Twisted(X(start, k + M), X(start, k), X(start, k + 1))
  {
    hide Twisted;
  }

  /** What the pass makes of the 624 words s: each is mixed with its neighbour, the last with the new first one, and
      joined to the word 397 further on, which from 227 on is a new one. */
  ghost predicate CircularPass(s: seq<bv32>, t: seq<bv32>) {
    && |s| == |t| == 624
    && (forall i | 0 <= i < 227 :: t[i] == s[i + 397] ^ Mixed(s[i], s[i + 1]))
    && (forall i | 227 <= i < 623 :: t[i] == t[i - 227] ^ Mixed(s[i], s[i + 1]))
    && t[623] == t[396] ^ Mixed(s[623], t[0])
  }

  lemma {:induction false} PassOfRecurrence(start: seq<bv32>, base: nat, s: seq<bv32>, t: seq<bv32>)
    requires |start| == |s| == |t| == N
    requires forall i | 0 <= i < N :: s[i] == X(start, base + i) && t[i] == X(start, base + N + i)
    ensures CircularPass(s, t)
  {
    hide X, Twisted, Mixed;
    forall i | 0 <= i < 227 ensures t[i] == s[i + 397] ^ Mixed(s[i], s[i + 1]) {
      MixedAt(start, base + i);
    }
    forall i | 227 <= i < 623 ensures t[i] == t[i - 227] ^ Mixed(s[i], s[i + 1]) {
      MixedAt(start, base + i);
      assert t[i - 227] == X(start, base + N + (i - 227)) == X(start, base + i + M);
    }
    MixedAt(start, base + 623);
    assert t[0] == X(start, base + N + 0) && t[396] == X(start, base + N + 396);
  }

  lemma {:induction false} MixedAt(start: seq<bv32>, k: nat)
    requires |start| == N
    ensures X(start, k + N) == X(start, k + M) ^ Mixed(X(start, k), X(start, k + 1))
  {
    hide X, Twisted, Mixed;
    XNext(start, k);
    TwistedIs(X(start, k + M), X(start, k), X(start, k + 1));
  }

  lemma {:induction false} TwistedIs(far: bv32, upper: bv32, lower: bv32)
    ensures Twisted(far, upper, lower) == far ^ Mixed(upper, lower)
  {
    hide Mixed;
  }

  function Xor(a: bv32, b: bv32): bv32 { a ^ b }
  function Shr11(w: bv32): bv32 { w >> 11 }

  function Step1(w: bv32): bv32 { Xor(w, Shr11(w)) }
  function Step2(w: bv32): bv32 { w ^ ((w << 7) & 0x9d2c_5680) }
  function Step3(w: bv32): bv32 { w ^ ((w << 15) & 0xefc6_0000) }
  function Step4(w: bv32): bv32 { w ^ (w >> 18) }

  function Temper(w: bv32): bv32 {
    Step4(Step3(Step2(Step1(w))))
  }

  function Unstep1(y: bv32): bv32 {
    var z := Xor(y, Shr11(y));
    Xor(y, Shr11(z))
  }
  function Unstep2(y: bv32): bv32 {
    var z1 := y ^ ((y << 7) & 0x9d2c_5680);
    var z2 := y ^ ((z1 << 7) & 0x9d2c_5680);
    var z3 := y ^ ((z2 << 7) & 0x9d2c_5680);
    y ^ ((z3 << 7) & 0x9d2c_5680)
  }
  function Unstep3(y: bv32): bv32 { Step3(y) }
  function Unstep4(y: bv32): bv32 { Step4(y) }

  lemma {:induction false} ShiftLaws(a: bv32, b: bv32)
    ensures Shr11(Xor(a, b)) == Xor(Shr11(a), Shr11(b))
    ensures Shr11(Shr11(Shr11(a))) == 0
  {
  }

  lemma {:induction false} XorLaws(a: bv32, b: bv32, c: bv32)
    ensures Xor(Xor(a, b), Xor(b, c)) == Xor(a, c)
    ensures Xor(Xor(a, b), b) == a && Xor(a, 0) == a
  {
  }

  lemma {:induction false} Step1Undone(a: bv32)
    ensures Unstep1(Step1(a)) == a
  {
    hide Shr11, Xor;
    var s1 := Shr11(a);
    var s2 := Shr11(s1);
    ShiftLaws(a, s1);
    XorLaws(a, s1, s2);
    ShiftLaws(a, s2);
    XorLaws(s1, 0, 0);
  }

  lemma {:induction false} Step2Undone(a: bv32)
    ensures Unstep2(Step2(a)) == a
  {
  }

  lemma {:induction false} Step3Undone(a: bv32)
    ensures Unstep3(Step3(a)) == a
  {
  }

  lemma {:induction false} Step4Undone(a: bv32)
    ensures Unstep4(Step4(a)) == a
  {
  }

  function Untemper(y: bv32): bv32 {
    Unstep1(Unstep2(Unstep3(Unstep4(y))))
  }

  /** Tempering loses no information: it can be undone. */
  lemma {:induction false} TemperUndone(a: bv32)
    ensures Untemper(Temper(a)) == a
  {
    hide Step1, Step2, Step3, Step4, Unstep1, Unstep2, Unstep3, Unstep4;
    Step4Undone(Step3(Step2(Step1(a))));
    Step3Undone(Step2(Step1(a)));
    Step2Undone(Step1(a));
    Step1Undone(a);
  }

  /** The k-th draw, counting from zero. */
  function Output(start: seq<bv32>, k: nat): bv32
    requires |start| == N
  {
    Temper(X(start, N + k))
  }

  lemma {:induction false} OutputIs(start: seq<bv32>, k: nat)
    requires |start| == N
    ensures Output(start, k) == Temper(X(start, N + k))
  {
    hide X, Temper;
  }

  ghost predicate SameOutputs(s: seq<bv32>, t: seq<bv32>, from: nat)
    requires |s| == N && |t| == N
  {
    forall k | from <= k < from + N :: Output(s, k) == Output(t, k)
  }

  /** Why this generator is kept out of production: any 624 consecutive outputs determine every
      later output, whatever the seeds were. */
  lemma {:induction false} OutputsDetermineFuture(s: seq<bv32>, t: seq<bv32>, from: nat, k: nat)
    requires |s| == N && |t| == N && SameOutputs(s, t, from) && k >= from
    ensures X(s, N + k) == X(t, N + k) && Output(s, k) == Output(t, k)
    decreases k
  {
    hide X, Temper, Untemper, Twisted;
    if k < from + N {
      assert Output(s, k) == Output(t, k);
      TemperUndone(X(s, N + k));
      TemperUndone(X(t, N + k));
    } else {
      OutputsDetermineFuture(s, t, from, k - N);
      OutputsDetermineFuture(s, t, from, k - N + 1);
      OutputsDetermineFuture(s, t, from, k - N + M);
      XNext(s, k);
      XNext(t, k);
    }
  }

  // ---------- the generator ----------

  lemma {:induction false} SeedNext(seed: bv32, i: nat)
    requires i < N
    ensures SeedWord(seed, i) == if i == 0 then seed else SeedStep(SeedWord(seed, i - 1), i)
  {
    hide SeedStep;
  }

  class Generator {
    var state: array<bv32>
    var index: nat
    var gen: nat
    ghost var start: seq<bv32>
    /** Draws made so far, and the recurrence index held in state[0]. */
    ghost var drawn: nat
    ghost var base: nat

    ghost predicate Valid()
      reads this, state
    {
      && state.Length == N && |start| == N
      && index <= N && base + index == N + drawn
      && (forall i | 0 <= i < N :: state[i] == X(start, base + i))
      && gen == drawn % COUNTER_SPAN
    }

    constructor (seed: bv32)
      ensures Valid() && fresh(state) && drawn == 0
      ensures forall i | 0 <= i < N :: start[i] == SeedWord(seed, i)
    {
      hide SeedStep, SeedWord, X;
      var s := new bv32[N];
      SeedNext(seed, 0);
      s[0] := seed;
      for i := 1 to N
        invariant forall j | 0 <= j < i :: s[j] == SeedWord(seed, j)
      {
        SeedNext(seed, i);
        s[i] := SeedStep(s[i - 1], i);
      }
      state, index, gen := s, N, 0;
      start, drawn, base := s[..], 0, 0;
      new;
      forall i | 0 <= i < N ensures state[i] == X(start, i) {
        XFirst(start, i);
      }
    }

    method Twist()
      requires Valid() && index == N
      modifies this`index, this`base, state
      ensures Valid() && index == 0 && base == old(base) + N
      ensures CircularPass(old(state[..]), state[..])
    {
      hide X, Twisted, CircularPass;
      ghost var next := base + N;
      for i := 0 to N
        invariant base + N == next == N + drawn
        invariant forall j | 0 <= j < i :: state[j] == X(start, next + j)
        invariant forall j | i <= j < N :: state[j] == X(start, base + j)
      {
        XNext(start, base + i);
        var after, far := (i + 1) % N, (i + M) % N;
        assert after == (if i + 1 < N then i + 1 else 0) && far == (if i + M < N then i + M else i + M - N);
        assert state[after] == X(start, base + i + 1);
        assert state[far] == X(start, base + i + M);
        state[i] := Twisted(state[far], state[i], state[after]);
      }
      index := 0;
      base := next;
      PassOfRecurrence(start, old(base), old(state[..]), state[..]);
    }

    /** The k-th draw, counting from zero, is the tempered word 624 + k of the recurrence. */
    method NextUint32() returns (y: bv32)
      requires Valid()
      modifies this, state
      ensures Valid() && state == old(state) && start == old(start)
      ensures drawn == old(drawn) + 1
      ensures y == Output(start, old(drawn))
    {
      hide X, Temper, Output, CircularPass;
      if index >= N {
        Twist();
      }
      assert state[index] == X(start, N + drawn);
      OutputIs(start, drawn);
      y := Temper(state[index]);
      index := index + 1;
      gen := (gen + 1) % COUNTER_SPAN;
      drawn := drawn + 1;
    }

    method Advance(n: nat)
      requires Valid()
      modifies this, state
      ensures Valid() && state == old(state) && start == old(start)
      ensures drawn == old(drawn) + n
    {
      for i := 0 to n
        invariant Valid() && state == old(state) && start == old(start)
        invariant drawn == old(drawn) + i
      {
        var _ := NextUint32();
      }
    }

    method GenerationCount() returns (n: nat)
      requires Valid()
      ensures n == drawn % 0x1_0000_0000_0000_0000
    {
      n := gen;
    }
  }

  // ---------- numbers of the published generator ----------

  /** The second to fourth words of the default seed 5489. */
  lemma {:induction false} DefaultSeedWords()
    ensures SeedWord(5489, 0) == 5489 && SeedWord(5489, 1) == 0x4d98_ee96
    ensures SeedWord(5489, 2) == 0xaf25_f095 && SeedWord(5489, 3) == 0xafd9_ba96
    ensures SeedWord(0xffff_ffff, 1) == 0x4fe1da6d
  {
  }

  /** The matrix of the recurrence acts when the lowest bit is set; only the highest bit of the first word counts. */
  lemma {:induction false} MixedWords()
    ensures Mixed(0xffff_ffff, 0x8000_0003) == 0xd908_b0de && Mixed(0x7fff_ffff, 0xffff_fffe) == 0x3fff_ffff
    ensures Mixed(0x8000_0000, 0) == 0x4000_0000 && Mixed(0, 1) == 0x9908_b0df
  {
  }

  /** What each single bit is tempered to. */
  lemma {:induction false} TemperedBits()
    ensures Temper(0x0000_0001) == 0x0040_0091 && Temper(0x0000_0002) == 0x0000_0002
    ensures Temper(0x0000_0004) == 0x0102_0244 && Temper(0x0000_0008) == 0x0204_0489
    ensures Temper(0x0000_0010) == 0x0000_0010 && Temper(0x0000_0020) == 0x0800_1220
    ensures Temper(0x0000_0040) == 0x0000_0040 && Temper(0x0000_0080) == 0x2040_4890
    ensures Temper(0x0000_0100) == 0x0080_0120 && Temper(0x0000_0200) == 0x0100_0240
    ensures Temper(0x0000_0400) == 0x0200_0480 && Temper(0x0000_0800) == 0x0444_0990
    ensures Temper(0x0000_1000) == 0x0808_1200 && Temper(0x0000_2000) == 0x0102_2244
    ensures Temper(0x0000_4000) == 0x2224_4c81 && Temper(0x0000_8000) == 0x4000_9010
    ensures Temper(0x0001_0000) == 0x8801_3220 && Temper(0x0002_0000) == 0x0102_0000
    ensures Temper(0x0004_0000) == 0x2044_4891 && Temper(0x0008_0000) == 0x0488_0022
    ensures Temper(0x0010_0000) == 0x0910_0044 && Temper(0x0020_0000) == 0x1220_0088
    ensures Temper(0x0040_0000) == 0x0444_0911 && Temper(0x0080_0000) == 0x0888_1222
    ensures Temper(0x0100_0000) == 0x8100_0040 && Temper(0x0200_0000) == 0x2220_4888
    ensures Temper(0x0400_0000) == 0x4400_9100 && Temper(0x0800_0000) == 0x8801_2200
    ensures Temper(0x1000_0000) == 0x1102_0440 && Temper(0x2000_0000) == 0x2004_0801
    ensures Temper(0x4000_0000) == 0x4408_1102 && Temper(0x8000_0000) == 0x8810_2204
  {
  }
}
