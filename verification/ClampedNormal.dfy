/** The normal draws of internal/racegen/rng/certified.go:56-87: two fractions become a normal, and a
    normal is drawn again until it falls into its range. */
module ClampedNormal {
  import opened CertifiedDraws

  /** A normal's parameters and the range it is clamped to. */
  datatype Spread = Spread(mean: real, std: real, min: real, max: real)

  /** The standard normal that two fractions make, the first of them not zero. */
  datatype BoxMuller = BoxMuller(z: (real, real) -> real)

  predicate Ordered(d: Spread) {
    d.min <= d.max
  }

  const RETRIES: nat := 50

  function Saturated(v: real, d: Spread): real {
    if v < d.min then d.min else if v > d.max then d.max else v
  }

  predicate InRange(v: real, d: Spread) {
    d.min <= v <= d.max
  }

  function NonZero(u: real): real {
    if u == 0.0 then 0.000000000001 else u
  }

  /** The normal made from the four words at p. */
  function ValueAt(g: BoxMuller, words: nat -> Word, p: nat, d: Spread): real {
    d.mean + d.std * g.z(NonZero(FractionAt(words, p)), FractionAt(words, p + 2))
  }

  method CertifiedNormal(g: BoxMuller, src: Source, d: Spread) returns (v: real)
    modifies src
    ensures v == ValueAt(g, src.words, old(src.pos), d) && src.pos == old(src.pos) + 4
    ensures var (words, p) := (src.words, old(src.pos));
            var k, l := FractionIndex(words(p), words(p + 1)), FractionIndex(words(p + 2), words(p + 3));
            var u := if k == 0 then 0.000000000001 else k as real / 9007199254740992.0;
            v == d.mean + d.std * g.z(u, l as real / 9007199254740992.0)
  {
    hide FractionAt;
    NormalOfFourWords(g, src.words, src.pos, d);
    var u1 := CertifiedFloat(src);
    if u1 == 0.0 {
      u1 := 0.000000000001;
    }
    var u2 := CertifiedFloat(src);
    var z0 := g.z(u1, u2);
    v := d.mean + d.std * z0;
  }

  /** How many of the normals from p on are rejected, at most 50, when t of them have been. */
  function Rejections(g: BoxMuller, words: nat -> Word, p: nat, d: Spread, t: nat): (k: nat)
    requires t <= RETRIES
    ensures t <= k <= RETRIES
    decreases RETRIES - t
  {
    if t == RETRIES || InRange(ValueAt(g, words, p + 4 * t, d), d) then t else Rejections(g, words, p, d, t + 1)
  }

  function ClampedAt(g: BoxMuller, words: nat -> Word, p: nat, d: Spread): real {
    Saturated(ValueAt(g, words, p + 4 * Rejections(g, words, p, d, 0), d), d)
  }

  function ClampedEnd(g: BoxMuller, words: nat -> Word, p: nat, d: Spread): nat {
    p + 4 * Rejections(g, words, p, d, 0) + 4
  }

  method Clamped(g: BoxMuller, src: Source, d: Spread) returns (v: real)
    modifies src
    ensures v == ClampedAt(g, src.words, old(src.pos), d) && src.pos == ClampedEnd(g, src.words, old(src.pos), d)
  {
    hide ValueAt;
    for i := 0 to RETRIES
      invariant src.pos == old(src.pos) + 4 * i
      invariant Rejections(g, src.words, old(src.pos), d, i) == Rejections(g, src.words, old(src.pos), d, 0)
    {
      v := CertifiedNormal(g, src, d);
      if d.min <= v <= d.max {
        return;
      }
    }
    v := CertifiedNormal(g, src, d);
    if v < d.min {
      return d.min;
    }
    if v > d.max {
      return d.max;
    }
  }

  lemma {:induction false} RejectionsAre(g: BoxMuller, words: nat -> Word, p: nat, d: Spread, t: nat)
    requires t <= RETRIES
    ensures var k := Rejections(g, words, p, d, t);
            && (forall i | t <= i < k :: !InRange(ValueAt(g, words, p + 4 * i, d), d))
            && (k < RETRIES ==> InRange(ValueAt(g, words, p + 4 * k, d), d))
    decreases RETRIES - t
  {
    hide ValueAt;
    if t < RETRIES && !InRange(ValueAt(g, words, p + 4 * t, d), d) {
      RejectionsAre(g, words, p, d, t + 1);
    }
  }

  /** The first normal in range among the first 50; failing that, the next one moved to the nearer bound.
      The result is always in range, and takes four words for each normal looked at. */
  lemma {:induction false} ClampedIs(g: BoxMuller, words: nat -> Word, p: nat, d: Spread)
    requires Ordered(d)
    ensures InRange(ClampedAt(g, words, p, d), d)
    ensures var k := Rejections(g, words, p, d, 0);
            var v := ValueAt(g, words, p + 4 * k, d);
            && k <= 50 && ClampedEnd(g, words, p, d) == p + 4 * (k + 1)
            && (forall i | 0 <= i < k :: !InRange(ValueAt(g, words, p + 4 * i, d), d))
            && ClampedAt(g, words, p, d) ==
                 if k < 50 || InRange(v, d) then v else if v < d.min then d.min else d.max
  {
    hide ValueAt;
    RejectionsAre(g, words, p, d, 0);
  }

  // ---------- several draws in a row ----------

  /** Where the stream stands after a clamped normal for each of the spreads. */
  function DrawsEnd(g: BoxMuller, words: nat -> Word, p: nat, ds: seq<Spread>): nat {
    if |ds| == 0 then p else
      var m := |ds| - 1;
      ClampedEnd(g, words, DrawsEnd(g, words, p, ds[..m]), ds[m])
  }

  function Drawn(g: BoxMuller, words: nat -> Word, p: nat, ds: seq<Spread>): (r: seq<real>)
    ensures |r| == |ds|
  {
    if |ds| == 0 then [] else
      var m := |ds| - 1;
      Drawn(g, words, p, ds[..m]) + [ClampedAt(g, words, DrawsEnd(g, words, p, ds[..m]), ds[m])]
  }

  lemma {:induction false} NoDraws(g: BoxMuller, words: nat -> Word, p: nat)
    ensures Drawn(g, words, p, []) == [] && DrawsEnd(g, words, p, []) == p
  {
  }

  lemma {:induction false} OneMoreDraw(g: BoxMuller, words: nat -> Word, p: nat, ds: seq<Spread>, d: Spread)
    ensures DrawsEnd(g, words, p, ds + [d]) == ClampedEnd(g, words, DrawsEnd(g, words, p, ds), d)
    ensures Drawn(g, words, p, ds + [d]) ==
            Drawn(g, words, p, ds) + [ClampedAt(g, words, DrawsEnd(g, words, p, ds), d)]
  {
    hide ClampedEnd, ClampedAt;
    assert (ds + [d])[..|ds|] == ds;
  }

  lemma {:induction false} DrawnInRange(g: BoxMuller, words: nat -> Word, p: nat, ds: seq<Spread>)
    requires forall i | 0 <= i < |ds| :: Ordered(ds[i])
    ensures forall i | 0 <= i < |ds| :: InRange(Drawn(g, words, p, ds)[i], ds[i])
  {
    hide ClampedAt;
    if |ds| > 0 {
      var m := |ds| - 1;
      DrawnInRange(g, words, p, ds[..m]);
      ClampedIs(g, words, DrawsEnd(g, words, p, ds[..m]), ds[m]);
    }
  }

  /** A normal is the mean plus the deviation times the Box-Muller value of two fractions of the unit: of the first two
      words, 1e-12 standing in for zero, and of the next two. */
  lemma {:induction false} NormalOfFourWords(g: BoxMuller, words: nat -> Word, p: nat, d: Spread)
    ensures var k, l := FractionIndex(words(p), words(p + 1)), FractionIndex(words(p + 2), words(p + 3));
            var u, v := k as real / 9007199254740992.0, l as real / 9007199254740992.0;
            && (k > 0 ==> ValueAt(g, words, p, d) == d.mean + d.std * g.z(u, v))
            && (k == 0 ==> ValueAt(g, words, p, d) == d.mean + d.std * g.z(0.000000000001, v))
  {
  }
}
