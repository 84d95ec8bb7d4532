/** The certified draws of internal/racegen/rng/certified.go: a 53-bit fraction, an
    unbiased integer by rejection, and the Fisher-Yates shuffle, over a mutable word source. */
module CertifiedDraws {
  import opened Arithmetic
  import opened Basics

  type Word = w: nat | w < 0x1_0000_0000

  const WORDS: nat := 0x1_0000_0000
  const LAST_WORD: nat := 0xffff_ffff
  const FRACTIONS: nat := 0x20_0000_0000_0000  // 2^53

  /** A stream on which rejection loops end: below 2^31 a word is accepted by every range. */
  ghost predicate Yields(words: nat -> Word, p: nat) {
    exists k: nat :: k >= p && words(k) < 0x8000_0000
  }

  ghost predicate Fair(words: nat -> Word) {
    forall p: nat :: Yields(words, p)
  }

  class Source {
    const words: nat -> Word
    var pos: nat

    constructor (words: nat -> Word)
      ensures this.words == words && pos == 0
    {
      this.words := words;
      pos := 0;
    }

    method NextUint32() returns (w: Word)
      modifies this
      ensures w == words(old(pos)) && pos == old(pos) + 1
    {
      w := words(pos);
      pos := pos + 1;
    }
  }

  // ---------- the 53-bit fraction ----------

  /** Which of the 2^53 equally spaced fractions a pair of words selects. */
  function FractionIndex(hi: Word, lo: Word): (k: nat)
    ensures k < FRACTIONS
  {
    (hi * WORDS + lo) / 2048
  }

  function Fraction(k: nat): real {
    k as real / FRACTIONS as real
  }

  function FractionAt(words: nat -> Word, p: nat): (x: real)
    ensures 0.0 <= x < 1.0
  {
    Fraction(FractionIndex(words(p), words(p + 1)))
  }

  method CertifiedFloat(src: Source) returns (x: real)
    modifies src
    ensures x == FractionAt(src.words, old(src.pos)) && src.pos == old(src.pos) + 2
    ensures 0.0 <= x < 1.0
  {
    var hi := src.NextUint32();
    var lo := src.NextUint32();
    x := Fraction(FractionIndex(hi, lo));
  }

  /** The fraction selected by a pair of words read as one 64-bit value, high word first. */
  function PairIndex(v: nat): nat
    requires v < WORDS * WORDS
  {
    FractionIndex(v / WORDS, v % WORDS)
  }

  function PairsFor(k: nat): set<int> {
    set v | 0 <= v < WORDS * WORDS && PairIndex(v) == k
  }

  /** Every fraction is hit by the same number of word pairs. */
  lemma {:induction false} FractionsEquallyLikely(k: nat)
    requires k < FRACTIONS
    ensures |PairsFor(k)| == 2048
  {
    var block := IntRange(2048 * k, 2048 * k + 2048);
    forall v: int ensures v in PairsFor(k) <==> v in block {
      if 0 <= v < WORDS * WORDS {
        assert PairIndex(v) == v / 2048;
      }
    }
    assert PairsFor(k) == block;
  }

  // ---------- the integer draw ----------

  /** The range is truncated to 32 bits, so 2^32 values wrap to 0. */
  function Span(min: int, max: int): Word {
    (max - min + 1) % WORDS
  }

  function Limit(span: Word): int
    requires span > 0
  {
    LAST_WORD - LAST_WORD % span - 1
  }

  lemma {:induction false} LimitFacts(span: Word)
    requires span > 0
    ensures Limit(span) + 1 == LAST_WORD / span * span
    ensures 0x7fff_ffff <= Limit(span) < LAST_WORD && LAST_WORD - Limit(span) <= span
  {
    var q, r := LAST_WORD / span, LAST_WORD % span;
    assert LAST_WORD == q * span + r;
    MulAtLeast(q, span);
  }

  predicate Accepted(span: Word, w: Word) {
    span == 0 || w <= Limit(span)
  }

  function Outcome(min: int, span: Word, w: Word): int {
    if span == 0 then min + w else min + w % span
  }

  /** The first position from p on whose word the range accepts. */
  ghost predicate IsFirstAccepted(words: nat -> Word, p: nat, span: Word, k: nat) {
    k >= p && Accepted(span, words(k)) && forall j | p <= j < k :: !Accepted(span, words(j))
  }

  lemma {:induction false} FirstAcceptedExists(words: nat -> Word, p: nat, span: Word, bound: nat)
    requires p <= bound && words(bound) < 0x8000_0000
    ensures exists k :: IsFirstAccepted(words, p, span, k)
    decreases bound - p
  {
    if span > 0 { LimitFacts(span); }
    if Accepted(span, words(p)) {
      assert IsFirstAccepted(words, p, span, p);
    } else {
      FirstAcceptedExists(words, p + 1, span, bound);
      var k :| IsFirstAccepted(words, p + 1, span, k);
      assert IsFirstAccepted(words, p, span, k);
    }
  }

  ghost function FirstAccepted(words: nat -> Word, p: nat, span: Word): nat
    requires Fair(words)
  {
    assert Yields(words, p);
    var bound: nat :| bound >= p && words(bound) < 0x8000_0000;
    FirstAcceptedExists(words, p, span, bound);
    var k :| IsFirstAccepted(words, p, span, k);
    k
  }

  lemma {:induction false} FirstAcceptedIs(words: nat -> Word, p: nat, span: Word)
    requires Fair(words)
    ensures IsFirstAccepted(words, p, span, FirstAccepted(words, p, span))
  {
  }

  method CertifiedInt(src: Source, min: int, max: int) returns (v: int)
    requires min <= max && Fair(src.words)
    modifies src
    ensures var k := FirstAccepted(src.words, old(src.pos), Span(min, max));
            && v == Outcome(min, Span(min, max), src.words(k)) && src.pos == k + 1
            && (max - min < LAST_WORD ==> v == min + src.words(k) % (max - min + 1))
    ensures min <= v <= max
  {
    var span := Span(min, max);
    ghost var k := FirstAccepted(src.words, src.pos, span);
    FirstAcceptedIs(src.words, src.pos, span);
    OutcomeInRange(min, max, src.words(k));
    if max - min < LAST_WORD {
      OutcomeIsRemainder(min, max, src.words(k));
    }
    if span == 0 {
      var w := src.NextUint32();
      return min + w;
    }
    var limit := Limit(span);
    while true
      invariant old(src.pos) <= src.pos <= k
      decreases k - src.pos
    {
      var w := src.NextUint32();
      if w <= limit {
        return min + w % span;
      }
    }
  }

  lemma {:induction false} OutcomeInRange(min: int, max: int, w: Word)
    requires min <= max
    ensures min <= Outcome(min, Span(min, max), w) <= max
  {
    var span := Span(min, max);
    if span == 0 {
      assert max - min + 1 >= WORDS;
    } else {
      assert span <= max - min + 1;
    }
  }

  /** The accepted words that a draw over [min, max] turns into v. */
  function WordsFor(min: int, max: int, v: int): set<Word> {
    set w: Word | w < WORDS && Accepted(Span(min, max), w) && Outcome(min, Span(min, max), w) == v
  }

  /** How many accepted words each value of an unbiased draw gets. */
  function Quota(span: Word): (q: nat)
    ensures q > 0
  {
    if span == 0 then 1 else LAST_WORD / span
  }

  /** residue, residue + span, ..: the q smallest numbers that leave the remainder `residue`. */
  function ResidueClass(span: nat, residue: nat, q: nat): set<int> {
    if q == 0 then {} else ResidueClass(span, residue, q - 1) + {(q - 1) * span + residue}
  }

  lemma {:induction false} ResidueClassMembers(span: nat, residue: nat, q: nat, w: nat)
    requires residue < span
    ensures w in ResidueClass(span, residue, q) <==> w / span < q && w % span == residue
  {
    if q > 0 {
      ResidueClassMembers(span, residue, q - 1, w);
      ResidueAt(span, residue, q - 1, w, (q - 1) * span + residue);
    }
  }

  lemma {:induction false} ResidueAt(span: nat, residue: nat, k: nat, w: nat, at: nat)
    requires residue < span && at == k * span + residue
    ensures w == at <==> w / span == k && w % span == residue
  {
    DivModUnique(at, k, span, residue);
    assert w == w / span * span + w % span;
  }

  lemma {:induction false} ResidueClassNext(span: nat, residue: nat, q: nat)
    requires residue < span && q > 0
    ensures (q - 1) * span + residue >= 0 && (q - 1) * span + residue !in ResidueClass(span, residue, q - 1)
  {
    hide ResidueClass;
    var w0: nat := (q - 1) * span + residue;
    ResidueClassMembers(span, residue, q - 1, w0);
    DivModUnique(w0, q - 1, span, residue);
  }

  lemma {:induction false} ResidueClassSize(span: nat, residue: nat, q: nat)
    requires residue < span
    ensures |ResidueClass(span, residue, q)| == q
    ensures forall w | w in ResidueClass(span, residue, q) :: w >= 0
  {
    if q > 0 {
      ResidueClassSize(span, residue, q - 1);
      ResidueClassNext(span, residue, q);
    }
  }

  lemma {:induction false} BelowLimit(span: Word, w: nat)
    requires span > 0
    ensures w <= Limit(span) <==> w / span < LAST_WORD / span
  {
    LimitFacts(span);
    var d := w / span;
    assert w == d * span + w % span;
    if d < LAST_WORD / span {
      assert LAST_WORD / span * span == d * span + (LAST_WORD / span - d) * span;
      MulAtLeast(LAST_WORD / span - d, span);
    } else if d > LAST_WORD / span {
      assert d * span == LAST_WORD / span * span + (d - LAST_WORD / span) * span;
      MulAtLeast(d - LAST_WORD / span, span);
    }
  }

  lemma {:induction false} WordsForAsResidues(min: int, max: int, v: int)
    requires min <= v <= max && max - min + 1 < WORDS
    ensures var span := max - min + 1;
            WordsFor(min, max, v) == ResidueClass(span, v - min, LAST_WORD / span)
  {
    var span: Word := max - min + 1;
    var residues := ResidueClass(span, v - min, LAST_WORD / span);
    ResidueClassSize(span, v - min, LAST_WORD / span);
    assert Span(min, max) == span;
    forall w: nat
      ensures w in residues <==> w / span < LAST_WORD / span && w % span == v - min
      ensures w <= Limit(span) <==> w / span < LAST_WORD / span
    {
      ResidueClassMembers(span, v - min, LAST_WORD / span, w);
      BelowLimit(span, w);
    }
    LimitFacts(span);
    assert forall w: int :: w in WordsFor(min, max, v) <==> w in residues;
  }

  /** CertifiedInt is unbiased on any range of at most 2^32 values. */
  lemma {:induction false} EachValueEquallyLikely(min: int, max: int, v: int)
    requires min <= v <= max && max - min < WORDS
    ensures |WordsFor(min, max, v)| == Quota(Span(min, max))
  {
    hide ResidueClass;
    if max - min + 1 == WORDS {
      assert WordsFor(min, max, v) == {v - min};
    } else {
      WordsForAsResidues(min, max, v);
      var span := max - min + 1;
      ResidueClassSize(span, v - min, LAST_WORD / span);
      assert Span(min, max) == span;
    }
  }

  ghost predicate EquallyLikely(min: int, max: int, q: nat) {
    forall v | min <= v <= max :: |WordsFor(min, max, v)| == q
  }

  ghost predicate Unbiased(min: int, max: int) {
    exists q: nat :: EquallyLikely(min, max, q)
  }

  /** Because the range is truncated to 32 bits, wider ranges are biased: max is never drawn. */
  lemma {:induction false} UnbiasedExactlyWithin32Bits(min: int, max: int)
    requires min <= max
    ensures Unbiased(min, max) <==> max - min < WORDS
  {
    if max - min < WORDS {
      forall v | min <= v <= max ensures |WordsFor(min, max, v)| == Quota(Span(min, max)) {
        EachValueEquallyLikely(min, max, v);
      }
      assert EquallyLikely(min, max, Quota(Span(min, max)));
    } else {
      MaxNeverDrawn(min, max);
      assert Accepted(Span(min, max), 0);
      assert 0 in WordsFor(min, max, min);
      assert |WordsFor(min, max, min)| != |WordsFor(min, max, max)|;
    }
  }

  lemma {:induction false} MaxNeverDrawn(min: int, max: int)
    requires max - min >= WORDS
    ensures WordsFor(min, max, max) == {}
  {
    forall w: Word ensures Outcome(min, Span(min, max), w) < max {
    }
  }

  function AcceptedWords(span: Word): set<int> {
    set w | 0 <= w < WORDS && Accepted(span, w)
  }

  /** At most `span` of the 2^32 words are rejected, and at least half are accepted. */
  lemma {:induction false} RejectionRate(span: Word)
    requires span > 0
    ensures WORDS - span <= |AcceptedWords(span)| && WORDS <= 2 * |AcceptedWords(span)|
  {
    LimitFacts(span);
    assert AcceptedWords(span) == IntRange(0, Limit(span) + 1);
  }

  // ---------- the shuffle ----------

  function Swapped<T>(s: seq<T>, i: nat, j: nat): (r: seq<T>)
    requires i < |s| && j < |s|
    ensures |r| == |s|
  {
    s[i := s[j]][j := s[i]]
  }

  lemma {:induction false} SwapKeepsMultiset<T>(s: seq<T>, i: nat, j: nat)
    requires i < |s| && j < |s|
    ensures multiset(Swapped(s, i, j)) == multiset(s)
  {
  }

  /** What the descending Fisher-Yates loop makes of s when iteration t swaps with index js[t]. */
  function FisherYates<T>(s: seq<T>, js: seq<nat>): (r: seq<T>)
    requires Choices(|s|, js)
    ensures |r| == |s|
    decreases |s|
  {
    if |s| <= 1 then s else
      var last := |s| - 1;
      var t := Swapped(s, last, js[0]);
      FisherYates(t[..last], js[1..]) + [t[last]]
  }

  /** The swap indices that lead from s to its rearrangement p. */
  function SwapsTo<T(==)>(s: seq<T>, p: seq<T>): (js: seq<nat>)
    requires Distinct(s) && multiset(s) == multiset(p)
    ensures Choices(|s|, js)
    decreases |s|
  {
    RearrangedDistinct(s, p);
    if |s| <= 1 then [] else
      var last := |s| - 1;
      var j := IndexOf(s, p[last]);
      var t := Swapped(s, last, j);
      PrefixRearranged(s, p, j);
      [j] + SwapsTo(t[..last], p[..last])
  }

  lemma {:induction false} DropLast<T>(s: seq<T>)
    requires |s| > 0
    ensures multiset(s) == multiset(s[..|s| - 1]) + multiset{s[|s| - 1]}
  {
    assert s == s[..|s| - 1] + [s[|s| - 1]];
  }

  lemma {:induction false} DropSameLast<T>(s: seq<T>, p: seq<T>)
    requires |s| == |p| > 0 && multiset(s) == multiset(p) && s[|s| - 1] == p[|p| - 1]
    ensures multiset(s[..|s| - 1]) == multiset(p[..|p| - 1])
  {
    DropLast(s);
    DropLast(p);
    assert multiset(s[..|s| - 1]) == multiset(s) - multiset{s[|s| - 1]};
  }

  lemma {:induction false} PrefixRearranged<T>(s: seq<T>, p: seq<T>, j: nat)
    requires Distinct(s) && multiset(s) == multiset(p) && |p| == |s| > 1
    requires j < |s| && s[j] == p[|p| - 1]
    ensures var t := Swapped(s, |s| - 1, j);
            Distinct(t[..|s| - 1]) && multiset(t[..|s| - 1]) == multiset(p[..|s| - 1])
  {
    var t := Swapped(s, |s| - 1, j);
    SwapKeepsMultiset(s, |s| - 1, j);
    RearrangedDistinct(s, t);
    DropSameLast(t, p);
  }

  lemma {:induction false} FisherYatesPermutes<T>(s: seq<T>, js: seq<nat>)
    requires Choices(|s|, js)
    ensures multiset(FisherYates(s, js)) == multiset(s)
    decreases |s|
  {
    if |s| > 1 {
      var t := Swapped(s, |s| - 1, js[0]);
      FisherYatesPermutes(t[..|s| - 1], js[1..]);
      SwapKeepsMultiset(s, |s| - 1, js[0]);
      DropLast(t);
    }
  }

  lemma {:induction false} SwapsReachTarget<T>(s: seq<T>, p: seq<T>)
    requires Distinct(s) && multiset(s) == multiset(p)
    ensures FisherYates(s, SwapsTo(s, p)) == p
    decreases |s|
  {
    RearrangedDistinct(s, p);
    if |s| == 1 {
      assert p[0] in s;
    } else if |s| > 1 {
      var last := |s| - 1;
      var j := IndexOf(s, p[last]);
      PrefixRearranged(s, p, j);
      SwapsReachTarget(Swapped(s, last, j)[..last], p[..last]);
    }
  }

  lemma {:induction false} SwapsRecovered<T>(s: seq<T>, js: seq<nat>)
    requires Distinct(s) && Choices(|s|, js)
    ensures multiset(FisherYates(s, js)) == multiset(s)
    ensures SwapsTo(s, FisherYates(s, js)) == js
    decreases |s|
  {
    FisherYatesPermutes(s, js);
    if |s| > 1 {
      var last := |s| - 1;
      var p := FisherYates(s, js);
      assert IndexOf(s, p[last]) == js[0];
      var t := Swapped(s, last, js[0]);
      assert p[..last] == FisherYates(t[..last], js[1..]);
      PrefixRearranged(s, p, js[0]);
      SwapsRecovered(t[..last], js[1..]);
    }
  }

  /** One accepted word per iteration, for the ranges n, n-1, .., 2. */
  predicate AcceptedTuple(n: nat, ws: seq<Word>)
    requires n < WORDS
  {
    if n <= 1 then |ws| == 0 else |ws| > 0 && Accepted(n, ws[0]) && AcceptedTuple(n - 1, ws[1..])
  }

  function SwapsFromWords(n: nat, ws: seq<Word>): (js: seq<nat>)
    requires n < WORDS && AcceptedTuple(n, ws)
    ensures Choices(n, js)
  {
    if n <= 1 then [] else [ws[0] % n] + SwapsFromWords(n - 1, ws[1..])
  }

  function Prefixed(heads: set<Word>, tails: set<seq<Word>>): (r: set<seq<Word>>)
    ensures forall x :: x in r <==> |x| > 0 && x[0] in heads && x[1..] in tails
  {
    var r := set w, rest | w in heads && rest in tails :: [w] + rest;
    assert forall x: seq<Word> | |x| > 0 && x[0] in heads && x[1..] in tails :: x in r by {
      forall x: seq<Word> | |x| > 0 && x[0] in heads && x[1..] in tails ensures x in r {
        assert x == [x[0]] + x[1..];
      }
    }
    r
  }

  lemma {:induction false} PrefixedOneSize(w: Word, tails: set<seq<Word>>)
    ensures |Prefixed({w}, tails)| == |tails|
    decreases |tails|
  {
    if tails == {} {
      assert Prefixed({w}, tails) == {};
    } else {
      var rest :| rest in tails;
      PrefixedOneSize(w, tails - {rest});
      forall x: seq<Word>
        ensures x in Prefixed({w}, tails) <==> x in Prefixed({w}, tails - {rest}) + {[w] + rest}
      {
        if x in Prefixed({w}, tails) {
          assert x == [x[0]] + x[1..];
        }
      }
      assert Prefixed({w}, tails) == Prefixed({w}, tails - {rest}) + {[w] + rest};
    }
  }

  lemma {:induction false} PrefixedSplit(heads: set<Word>, w: Word, tails: set<seq<Word>>)
    requires w in heads
    ensures |Prefixed(heads, tails)| == |Prefixed(heads - {w}, tails)| + |Prefixed({w}, tails)|
  {
    assert Prefixed(heads, tails) == Prefixed(heads - {w}, tails) + Prefixed({w}, tails);
    assert Prefixed(heads - {w}, tails) !! Prefixed({w}, tails);
  }

  lemma {:induction false} PrefixedSize(heads: set<Word>, tails: set<seq<Word>>, size: nat)
    requires |heads| == size
    ensures |Prefixed(heads, tails)| == size * |tails|
    decreases size
  {
    hide *;
    if size == 0 {
      assert Prefixed(heads, tails) == {};
    } else {
      var w :| w in heads;
      PrefixedSize(heads - {w}, tails, size - 1);
      PrefixedOneSize(w, tails);
      PrefixedSplit(heads, w, tails);
      MulAdd(size - 1, 1, |tails|);
    }
  }

  /** All word tuples a shuffle of n elements can accept that produce exactly the swaps js. */
  function TuplesFor(n: nat, js: seq<nat>): (r: set<seq<Word>>)
    requires n < WORDS && Choices(n, js)
    decreases n
  {
    if n <= 1 then {[]} else Prefixed(WordsFor(0, n - 1, js[0]), TuplesFor(n - 1, js[1..]))
  }

  lemma {:induction false} TuplesForMeaning(n: nat, js: seq<nat>, ws: seq<Word>)
    requires n < WORDS && Choices(n, js)
    ensures ws in TuplesFor(n, js) <==> AcceptedTuple(n, ws) && SwapsFromWords(n, ws) == js
    decreases n
  {
    if n > 1 && |ws| > 0 {
      assert Span(0, n - 1) == n;
      assert ws[0] in WordsFor(0, n - 1, js[0]) <==> Accepted(n, ws[0]) && ws[0] % n == js[0];
      TuplesForMeaning(n - 1, js[1..], ws[1..]);
      assert js == [js[0]] + js[1..];
    }
  }

  /** The number of accepted word tuples behind each ordering of n elements. */
  function TuplesPerOrdering(n: nat): (q: nat)
    requires n < WORDS
    ensures q > 0
  {
    if n <= 1 then 1 else Quota(n) * TuplesPerOrdering(n - 1)
  }

  lemma {:induction false} TuplesForSize(n: nat, js: seq<nat>)
    requires n < WORDS && Choices(n, js)
    ensures |TuplesFor(n, js)| == TuplesPerOrdering(n)
    decreases n
  {
    if n > 1 {
      assert Span(0, n - 1) == n;
      EachValueEquallyLikely(0, n - 1, js[0]);
      TuplesForSize(n - 1, js[1..]);
      PrefixedSize(WordsFor(0, n - 1, js[0]), TuplesFor(n - 1, js[1..]), Quota(n));
    }
  }

  /** The shuffle is exactly uniform: the accepted word tuples that turn s into p are as many for
      every ordering p, whatever p is. */
  lemma {:induction false} ShuffleExactlyUniform<T>(s: seq<T>, p: seq<T>)
    requires |s| < WORDS && Distinct(s) && multiset(s) == multiset(p)
    ensures var tuples := TuplesFor(|s|, SwapsTo(s, p));
            && |tuples| == TuplesPerOrdering(|s|)
            && forall ws :: ws in tuples <==>
                 AcceptedTuple(|s|, ws) && FisherYates(s, SwapsFromWords(|s|, ws)) == p
  {
    var js := SwapsTo(s, p);
    TuplesForSize(|s|, js);
    forall ws
      ensures ws in TuplesFor(|s|, js) <==>
                AcceptedTuple(|s|, ws) && FisherYates(s, SwapsFromWords(|s|, ws)) == p
    {
      TuplesForMeaning(|s|, js, ws);
      SwapsReachTarget(s, p);
      if AcceptedTuple(|s|, ws) {
        SwapsRecovered(s, SwapsFromWords(|s|, ws));
      }
    }
  }

  /** The swap indices, and the position reached, of a shuffle of n elements reading from p. */
  ghost function UpcomingSwaps(words: nat -> Word, p: nat, n: nat): (r: (seq<nat>, nat))
    requires n < WORDS && Fair(words)
    ensures Choices(n, r.0) && (n <= 1 ==> r.1 == p)
    decreases n
  {
    if n <= 1 then ([], p) else
      var k := FirstAccepted(words, p, n);
      var (rest, q) := UpcomingSwaps(words, k + 1, n - 1);
      ([words(k) % n] + rest, q)
  }

  /** The swaps a shuffle performs are those of an accepted word tuple, so its result is governed
      by ShuffleExactlyUniform. */
  lemma {:induction false} UpcomingSwapsAccepted(words: nat -> Word, p: nat, n: nat)
    requires n < WORDS && Fair(words)
    ensures exists ws :: AcceptedTuple(n, ws) && SwapsFromWords(n, ws) == UpcomingSwaps(words, p, n).0
    decreases n
  {
    if n <= 1 {
      assert AcceptedTuple(n, []);
    } else {
      var k := FirstAccepted(words, p, n);
      FirstAcceptedIs(words, p, n);
      UpcomingSwapsAccepted(words, k + 1, n - 1);
      var rest :| AcceptedTuple(n - 1, rest) && SwapsFromWords(n - 1, rest) == UpcomingSwaps(words, k + 1, n - 1).0;
      var ws := [words(k)] + rest;
      assert ws[1..] == rest;
      assert AcceptedTuple(n, ws);
    }
  }

  lemma {:induction false} SwapWithinPrefix<T>(s: seq<T>, i: nat, j: nat)
    requires j <= i < |s|
    ensures var t, u := Swapped(s, i, j), Swapped(s[..i + 1], i, j);
            u[..i] == t[..i] && [u[i]] + s[i + 1..] == t[i..]
  {
  }

  /** What the loop still has to do to the whole array when it has come down to index i. */
  function SwapDown<T>(s: seq<T>, i: int, js: seq<nat>): (r: seq<T>)
    requires -1 <= i < |s| && Choices(i + 1, js)
    ensures |r| == |s| && (i <= 0 ==> r == s)
    decreases i
  {
    if i <= 0 then s else SwapDown(Swapped(s, i, js[0]), i - 1, js[1..])
  }

  lemma {:induction false} SwapDownIsFisherYates<T>(s: seq<T>, i: int, js: seq<nat>)
    requires -1 <= i < |s| && Choices(i + 1, js)
    ensures SwapDown(s, i, js) == FisherYates(s[..i + 1], js) + s[i + 1..]
    decreases i
  {
    if i > 0 {
      SwapDownIsFisherYates(Swapped(s, i, js[0]), i - 1, js[1..]);
      SwapWithinPrefix(s, i, js[0]);
      var u := Swapped(s[..i + 1], i, js[0]);
      var done := FisherYates(u[..i], js[1..]);
      assert done + [u[i]] + s[i + 1..] == done + ([u[i]] + s[i + 1..]);
    }
  }

  method SwapElements<T>(arr: array<T>, i: nat, j: nat)
    requires i < arr.Length && j < arr.Length
    modifies arr
    ensures arr[..] == Swapped(old(arr[..]), i, j)
  {
    arr[i], arr[j] := arr[j], arr[i];
  }

  /** One iteration: the draw supplies the next swap index, and the rest of the work is unchanged. */
  lemma {:induction false} ShuffleIteration<T>(words: nat -> Word, p: nat, s: seq<T>, i: nat)
    requires 0 < i < |s| < WORDS && Fair(words)
    ensures var span, (js, end) := Span(0, i), UpcomingSwaps(words, p, i + 1);
            var k := FirstAccepted(words, p, span);
            && |js| > 0 && js[0] == Outcome(0, span, words(k)) <= i && Choices(i, js[1..])
            && UpcomingSwaps(words, k + 1, i) == (js[1..], end)
            && SwapDown(Swapped(s, i, js[0]), i - 1, js[1..]) == SwapDown(s, i, js)
  {
  }

  method CertifiedShuffle<T>(src: Source, arr: array<T>)
    requires arr.Length < WORDS && Fair(src.words)
    modifies src, arr
    ensures var (js, end) := UpcomingSwaps(src.words, old(src.pos), arr.Length);
            arr[..] == FisherYates(old(arr[..]), js) && src.pos == end
  {
    hide *;
    ghost var words := src.words;
    ghost var s := arr[..];
    ghost var (js, end) := UpcomingSwaps(words, src.pos, arr.Length);
    SwapDownIsFisherYates(s, |s| - 1, js);
    assert s[..|s|] + s[|s|..] == s == s[..|s|];
    ghost var all := SwapDown(s, |s| - 1, js);
    var i := arr.Length - 1;
    while i > 0
      invariant -1 <= i < arr.Length && arr[..] == s
      invariant UpcomingSwaps(words, src.pos, i + 1) == (js, end)
      invariant SwapDown(s, i, js) == all
    {
      ShuffleIteration(words, src.pos, s, i);
      var j := CertifiedInt(src, 0, i);
      SwapElements(arr, i, j);
      s, js := Swapped(s, i, j), js[1..];
      i := i - 1;
    }
  }

  // ---------- which words decide ----------

  /** The first of the two words is the high one: the fraction lies in that word's 2^32-th part of the unit, and within
      it the upper 21 bits of the second word decide. */
  lemma {:induction false} HighWordFirst(words: nat -> Word, p: nat)
    ensures var k := FractionIndex(words(p), words(p + 1));
            && k / 0x20_0000 == words(p) && k % 0x20_0000 == words(p + 1) / 2048
            && FractionAt(words, p) * 9007199254740992.0 == k as real
  {
    var hi: int, lo: int := words(p), words(p + 1);
    var k := FractionIndex(hi, lo);
    assert k == hi * 0x20_0000 + lo / 2048;
    DivModUnique(k, hi, 0x20_0000, lo / 2048);
  }

  /** On a range of less than 2^32 values an accepted word gives the smallest value plus its remainder. */
  lemma {:induction false} OutcomeIsRemainder(min: int, max: int, w: Word)
    requires min <= max && max - min + 1 < 0x1_0000_0000
    ensures Outcome(min, Span(min, max), w) == min + w % (max - min + 1)
    ensures Accepted(Span(min, max), w) <==> w < 0xffff_ffff / (max - min + 1) * (max - min + 1)
  {
    LimitFacts(max - min + 1);
  }
}
