/** The buffered generator of internal/racegen/rng/hmac_drbg.go, related to HMAC_DRBG of
    section 10.1.2 of NIST SP 800-90A Rev. 1. HMAC itself is an uninterpreted function. */
module HmacDrbg {
  import opened Options
  import opened Arithmetic
  import opened CertifiedDraws

  type Byte = b: nat | b < 256
  type Bytes = seq<Byte>
  type Block = s: seq<Byte> | |s| == 32 witness seq(32, i => 0)
  type Hmac = (Bytes, Bytes) -> Block

  const ENTROPY_LEN: nat := 32
  const NONCE_LEN: nat := 16
  const RESEED_INTERVAL: nat := 10_000
  const CHUNK: nat := 1024
  const WORDS_PER_CHUNK: nat := 256
  const COUNTER_SPAN: nat := 0x1_0000_0000_0000_0000

  // ---------- the standard's state machine ----------

  datatype State = State(k: Block, v: Block, counter: nat)

  /** HMAC_DRBG_Update, section 10.1.2.2. */
  function Update(hmac: Hmac, k: Block, v: Block, data: Bytes): (Block, Block) {
    var k1 := hmac(k, v + [0] + data);
    var v1 := hmac(k1, v);
    if |data| == 0 then (k1, v1) else
      var k2 := hmac(k1, v1 + [1] + data);
      (k2, hmac(k2, v1))
  }

  function ZeroBlock(): Block { seq(32, i => 0) }
  function OneBlock(): Block { seq(32, i => 1) }

  /** Section 10.1.2.3. */
  function Instantiated(hmac: Hmac, seed: Bytes): State {
    var (k, v) := Update(hmac, ZeroBlock(), OneBlock(), seed);
    State(k, v, 1)
  }

  /** Section 10.1.2.4. */
  function Reseeded(hmac: Hmac, st: State, material: Bytes): State {
    var (k, v) := Update(hmac, st.k, st.v, material);
    State(k, v, 1)
  }

  /** V after j further applications of V = HMAC(K, V). */
  function Chain(hmac: Hmac, k: Block, v: Block, j: nat): Block {
    if j == 0 then v else hmac(k, Chain(hmac, k, v, j - 1))
  }

  function Temp(hmac: Hmac, k: Block, v: Block, j: nat): (t: Bytes)
    ensures |t| == 32 * j
  {
    if j == 0 then [] else Temp(hmac, k, v, j - 1) + Chain(hmac, k, v, j)
  }

  /** Section 10.1.2.5 for one request of CHUNK bytes, without additional input. */
  function RequestOutput(hmac: Hmac, st: State): (out: Bytes)
    ensures |out| == CHUNK
  {
    Temp(hmac, st.k, st.v, CHUNK / 32)
  }

  function AfterRequest(hmac: Hmac, st: State): State {
    var (k, v) := Update(hmac, st.k, Chain(hmac, st.k, st.v, CHUNK / 32), []);
    State(k, v, st.counter + 1)
  }

  // ---------- call logs ----------

  /** What was asked of the standard's machine; `taken` words of a request's output were emitted. */
  datatype Call = Reseed(material: Bytes) | Request(taken: nat)

  function StateAfter(hmac: Hmac, seed: Bytes, calls: seq<Call>): State {
    if |calls| == 0 then Instantiated(hmac, seed) else
      var before := StateAfter(hmac, seed, calls[..|calls| - 1]);
      match calls[|calls| - 1]
      case Reseed(material) => Reseeded(hmac, before, material)
      case Request(_) => AfterRequest(hmac, before)
  }

  /** Requests served since the last seeding. */
  function Served(calls: seq<Call>): nat {
    if |calls| == 0 || calls[|calls| - 1].Reseed? then 0 else Served(calls[..|calls| - 1]) + 1
  }

  function Reseeds(calls: seq<Call>): nat {
    if |calls| == 0 then 0 else
      Reseeds(calls[..|calls| - 1]) + if calls[|calls| - 1].Reseed? then 1 else 0
  }

  /** Requests stay within the seed's budget, and a further request directly after one comes only
      when the earlier output was emitted in full: what is lost is lost to a reseed. */
  ghost predicate Disciplined(calls: seq<Call>) {
    |calls| == 0 ||
    var m := |calls| - 1;
    && Disciplined(calls[..m])
    && (calls[m].Request? ==>
          && calls[m].taken <= WORDS_PER_CHUNK
          && Served(calls[..m]) < RESEED_INTERVAL
          && (m > 0 && calls[m - 1].Request? ==> calls[m - 1].taken == WORDS_PER_CHUNK))
  }

  function BigEndian(b0: Byte, b1: Byte, b2: Byte, b3: Byte): Word {
    var n: int := b0;
    n * 0x100_0000 + b1 as int * 0x1_0000 + b2 as int * 0x100 + b3 as int
  }

  /** The big-endian word at byte offset 4 * i. */
  function WordAt(bytes: Bytes, i: nat): Word
    requires 4 * i + 4 <= |bytes|
  {
    BigEndian(bytes[4 * i], bytes[4 * i + 1], bytes[4 * i + 2], bytes[4 * i + 3])
  }

  function WordsOf(bytes: Bytes, n: nat): (ws: seq<Word>)
    requires 4 * n <= |bytes|
    ensures |ws| == n
  {
    if n == 0 then [] else WordsOf(bytes, n - 1) + [WordAt(bytes, n - 1)]
  }

  /** The words that a log of calls has given out. */
  function Emitted(hmac: Hmac, seed: Bytes, calls: seq<Call>): seq<Word> {
    if |calls| == 0 then [] else
      var before := calls[..|calls| - 1];
      match calls[|calls| - 1]
      case Reseed(_) => Emitted(hmac, seed, before)
      case Request(taken) =>
        var n := if taken <= WORDS_PER_CHUNK then taken else WORDS_PER_CHUNK;
        Emitted(hmac, seed, before) + WordsOf(RequestOutput(hmac, StateAfter(hmac, seed, before)), n)
  }

  lemma {:induction false} LogReseed(hmac: Hmac, seed: Bytes, calls: seq<Call>, material: Bytes)
    ensures var after := calls + [Reseed(material)];
            && StateAfter(hmac, seed, after) == Reseeded(hmac, StateAfter(hmac, seed, calls), material)
            && Emitted(hmac, seed, after) == Emitted(hmac, seed, calls)
            && Served(after) == 0 && Reseeds(after) == Reseeds(calls) + 1
            && (Disciplined(calls) ==> Disciplined(after))
  {
    hide Reseeded, AfterRequest, RequestOutput, WordsOf;
    var after := calls + [Reseed(material)];
    assert after[..|calls|] == calls;
  }

  lemma {:induction false} LogRequest(hmac: Hmac, seed: Bytes, calls: seq<Call>, taken: nat)
    requires taken <= WORDS_PER_CHUNK
    ensures var after, before := calls + [Request(taken)], StateAfter(hmac, seed, calls);
            && StateAfter(hmac, seed, after) == AfterRequest(hmac, before)
            && Emitted(hmac, seed, after) == Emitted(hmac, seed, calls) + WordsOf(RequestOutput(hmac, before), taken)
            && Served(after) == Served(calls) + 1 && Reseeds(after) == Reseeds(calls)
            && (Disciplined(after) <==>
                  Disciplined(calls) && Served(calls) < RESEED_INTERVAL &&
                  (|calls| > 0 && calls[|calls| - 1].Request? ==> calls[|calls| - 1].taken == WORDS_PER_CHUNK))
  {
    hide Reseeded, AfterRequest, RequestOutput, WordsOf;
    var after := calls + [Request(taken)];
    assert after[..|calls|] == calls;
  }

  /** After a reseed the whole budget is left. */
  lemma {:induction false} ReseedRestarts(hmac: Hmac, seed: Bytes, calls: seq<Call>, material: Bytes)
    ensures Served(calls + [Reseed(material)]) == 0
  {
    LogReseed(hmac, seed, calls, material);
  }

  predicate IssuedLast(calls: seq<Call>) {
    |calls| > 0 && calls[|calls| - 1].Request?
  }

  /** The log after one more word of the last request is emitted. */
  function TakeOne(calls: seq<Call>): seq<Call>
    requires IssuedLast(calls)
  {
    calls[..|calls| - 1] + [Request(calls[|calls| - 1].taken + 1)]
  }

  lemma {:induction false} LogTake(hmac: Hmac, seed: Bytes, calls: seq<Call>)
    requires |calls| > 0 && calls[|calls| - 1].Request? && calls[|calls| - 1].taken < WORDS_PER_CHUNK
    requires Disciplined(calls)
    ensures var before, taken, after := calls[..|calls| - 1], calls[|calls| - 1].taken, TakeOne(calls);
            && StateAfter(hmac, seed, after) == StateAfter(hmac, seed, calls)
            && Emitted(hmac, seed, after) ==
                 Emitted(hmac, seed, calls) + [WordAt(RequestOutput(hmac, StateAfter(hmac, seed, before)), taken)]
            && Served(after) == Served(calls) && Reseeds(after) == Reseeds(calls) && Disciplined(after)
  {
    hide RequestOutput, AfterRequest, WordAt;
    var before, taken := calls[..|calls| - 1], calls[|calls| - 1].taken;
    assert calls == before + [Request(taken)];
    LogRequest(hmac, seed, before, taken);
    LogRequest(hmac, seed, before, taken + 1);
  }

  /** No seed serves more than 10 000 requests: in a disciplined log, any stretch of calls without
      a reseed is at most that long. */
  lemma {:induction false} SeedBudget(calls: seq<Call>, i: nat, j: nat)
    requires Disciplined(calls) && i <= j <= |calls|
    requires forall t | i <= t < j :: calls[t].Request?
    ensures j - i <= Served(calls[..j]) <= 10_000
    decreases j
  {
    DisciplinedPrefix(calls, j);
    if j > 0 {
      assert calls[..j][..j - 1] == calls[..j - 1];
      if i < j {
        SeedBudget(calls, i, j - 1);
      }
    }
  }

  lemma {:induction false} DisciplinedPrefix(calls: seq<Call>, j: nat)
    requires Disciplined(calls) && j <= |calls|
    ensures Disciplined(calls[..j])
    decreases |calls|
  {
    if j < |calls| {
      var m := |calls| - 1;
      DisciplinedPrefix(calls[..m], j);
      assert calls[..m][..j] == calls[..j];
    } else {
      assert calls[..j] == calls;
    }
  }

  /** Only a reseed loses output: a request not emitted in full is the last call or is followed
      by a reseed. */
  lemma {:induction false} OnlyReseedsDiscard(calls: seq<Call>, i: nat)
    requires Disciplined(calls) && i < |calls| && calls[i].Request? && calls[i].taken < WORDS_PER_CHUNK
    ensures i == |calls| - 1 || calls[i + 1].Reseed?
    decreases |calls|
  {
    var m := |calls| - 1;
    if i + 1 < m {
      OnlyReseedsDiscard(calls[..m], i);
    }
  }

  // ---------- the entropy source ----------

  datatype Reply = Failed | Filled(bytes: nat -> Byte)

  function Material(r: Reply, n: nat): (m: Bytes)
    requires r.Filled?
    ensures |m| == n
  {
    seq(n, i requires 0 <= i < n => r.bytes(i))
  }

  /** The reseed that precedes a request once the seed's budget is spent. */
  function AutoReseed(auto: bool, r: Reply): seq<Call> {
    if auto && r.Filled? then [Reseed(Material(r, 32))] else []
  }

  class EntropySource {
    const script: nat -> Reply
    var calls: nat

    constructor (script: nat -> Reply)
      ensures this.script == script && calls == 0
    {
      this.script := script;
      calls := 0;
    }

    method Entropy(n: nat) returns (m: Option<Bytes>)
      modifies this
      ensures calls == old(calls) + 1
      ensures m == if script(old(calls)).Filled? then Some(Material(script(old(calls)), n)) else None
    {
      var r := script(calls);
      calls := calls + 1;
      m := if r.Filled? then Some(Material(r, n)) else None;
    }
  }

  // ---------- the buffer ----------

  ghost predicate Erased(bytes: Bytes) {
    forall i | 0 <= i < |bytes| :: bytes[i] == 0
  }

  /** `left` bytes of out are still to be emitted; the bytes before them are zero. */
  ghost predicate Shows(bytes: Bytes, left: nat, out: Bytes, taken: nat) {
    && |bytes| == |out| == CHUNK && taken <= WORDS_PER_CHUNK && left == CHUNK - 4 * taken
    && Erased(bytes[..4 * taken]) && bytes[4 * taken..] == out[4 * taken..]
  }

  function EraseWord(bytes: Bytes, off: nat): (r: Bytes)
    requires off + 4 <= |bytes|
    ensures |r| == |bytes|
  {
    bytes[..off] + [0, 0, 0, 0] + bytes[off + 4..]
  }

  lemma {:induction false} ShowsFresh(out: Bytes)
    requires |out| == CHUNK
    ensures Shows(out, CHUNK, out, 0)
  {
  }

  /** Taking the word at the front of what is left. */
  lemma {:induction false} ShowsNext(bytes: Bytes, left: nat, out: Bytes, taken: nat)
    requires Shows(bytes, left, out, taken) && left >= 4
    ensures left <= CHUNK
    ensures var off := CHUNK - left;
            && taken < WORDS_PER_CHUNK && off + 4 <= CHUNK && 4 * taken + 4 <= |out|
            && BigEndian(bytes[off], bytes[off + 1], bytes[off + 2], bytes[off + 3]) == WordAt(out, taken)
            && Shows(EraseWord(bytes, off), left - 4, out, taken + 1)
  {
    hide BigEndian;
    var off := 4 * taken;
    var after := EraseWord(bytes, off);
    forall i | off <= i < |out| ensures bytes[i] == out[i] {
      assert bytes[off..][i - off] == out[off..][i - off];
    }
    assert after[off + 4..] == bytes[off + 4..] == out[off + 4..];
    forall i | 0 <= i < off + 4 ensures after[i] == 0 {
      assert i < off ==> after[i] == bytes[..off][i];
    }
  }

  // ---------- the generator ----------

  class Drbg {
    const hmac: Hmac
    const es: EntropySource
    var key: Block
    var v: Block
    /** The key the cached MAC was built with. */
    var mac: Block
    var reseedCounter: nat
    var reseeds: nat
    var gen: nat
    var buf: array<Byte>
    /** Valid bytes left, at the end of buf. */
    var bufN: nat
    ghost var seed: Bytes
    ghost var calls: seq<Call>
    ghost var emitted: seq<Word>

    ghost predicate Valid()
      reads this, buf
    {
      && mac == key
      && StateAfter(hmac, seed, calls) == State(key, v, reseedCounter) && reseedCounter == Served(calls) + 1
      && Disciplined(calls)
      && emitted == Emitted(hmac, seed, calls)
      && gen == |emitted| % COUNTER_SPAN && reseeds == Reseeds(calls) % COUNTER_SPAN
      && BufferHolds(calls)
    }

    /** The buffer is the last request's output with the emitted words zeroed, or all zeros. */
    ghost predicate BufferHolds(log: seq<Call>)
      reads this, buf
    {
      && buf.Length == CHUNK
      && if IssuedLast(log) then
           Shows(buf[..], bufN, RequestOutput(hmac, StateAfter(hmac, seed, log[..|log| - 1])), log[|log| - 1].taken)
         else
           bufN == 0 && Erased(buf[..])
    }

    constructor FromSeed(hmac: Hmac, es: EntropySource, material: Bytes)
      ensures Valid() && fresh(buf) && this.hmac == hmac && this.es == es
      ensures seed == material && calls == [] && emitted == []
      ensures material != [] ==>
                var k0, v0 := seq(32, i => 0x00), seq(32, i => 0x01);
                var k1 := hmac(k0, v0 + [0x00] + material);
                key == hmac(k1, hmac(k1, v0) + [0x01] + material) && v == hmac(key, hmac(k1, v0))
    {
      UpdateBytes(hmac, ZeroBlock(), OneBlock(), material);
      this.hmac := hmac;
      this.es := es;
      var (k, v0) := Update(hmac, ZeroBlock(), OneBlock(), material);
      key, v, mac := k, v0, k;
      reseedCounter, reseeds, gen := 1, 0, 0;
      buf := new Byte[CHUNK](i => 0);
      bufN := 0;
      seed, calls, emitted := material, [], [];
    }

    /** Instantiation: 48 bytes of entropy and nonce, then the personalization string. */
    static method New(hmac: Hmac, es: EntropySource?, personalization: Bytes) returns (d: Option<Drbg>)
      modifies es
      ensures es == null ==> d == None
      ensures es != null ==> es.calls == old(es.calls) + 1
      ensures es != null ==> (d == None <==> es.script(old(es.calls)).Failed?)
      ensures d.Some? ==> d.value.Valid() && fresh(d.value) && fresh(d.value.buf) && d.value.es == es &&
                          d.value.hmac == hmac && d.value.calls == [] && d.value.emitted == [] &&
                          es.script(old(es.calls)).Filled? && d.value.seed ==
                            Material(es.script(old(es.calls)), 48) + personalization
    {
      if es == null {
        return None;
      }
      var m := es.Entropy(ENTROPY_LEN + NONCE_LEN);
      if m == None {
        return None;
      }
      var g := new Drbg.FromSeed(hmac, es, m.value + personalization);
      d := Some(g);
    }

    method UpdateState(data: Bytes)
      modifies this`key, this`v, this`mac
      ensures (key, v) == Update(hmac, old(key), old(v), data) && mac == key
      ensures data == [] ==> key == hmac(old(key), old(v) + [0x00]) && v == hmac(key, old(v))
      ensures data != [] ==>
                var k1 := hmac(old(key), old(v) + [0x00] + data);
                key == hmac(k1, hmac(k1, old(v)) + [0x01] + data) && v == hmac(key, hmac(k1, old(v)))
    {
      UpdateBytes(hmac, key, v, data);
      key := hmac(key, v + [0] + data);
      v := hmac(key, v);
      if |data| > 0 {
        key := hmac(key, v + [1] + data);
        v := hmac(key, v);
      }
      mac := key;
    }

    method ZeroizeBuffer()
      requires buf.Length == CHUNK
      modifies buf
      ensures Erased(buf[..])
    {
      for i := 0 to CHUNK
        invariant forall j | 0 <= j < i :: buf[j] == 0
      {
        buf[i] := 0;
      }
    }

    /** On success the standard's machine is reseeded and the buffered output is discarded and
        erased; on an entropy failure nothing changes. */
    method Reseed(additional: Bytes) returns (ok: bool)
      requires Valid()
      modifies this, buf, es
      ensures Valid() && buf == old(buf) && seed == old(seed) && es.calls == old(es.calls) + 1
      ensures ok <==> es.script(old(es.calls)).Filled?
      ensures emitted == old(emitted) && gen == old(gen)
      ensures ok ==> calls == old(calls) + [Call.Reseed(Material(es.script(old(es.calls)), 32) + additional)]
      ensures ok ==> bufN == 0 && Erased(buf[..])
      ensures ok ==>
                var material := Material(es.script(old(es.calls)), 32) + additional;
                var k1 := hmac(old(key), old(v) + [0x00] + material);
                key == hmac(k1, hmac(k1, old(v)) + [0x01] + material) && v == hmac(key, hmac(k1, old(v)))
      ensures !ok ==> unchanged(this) && unchanged(buf)
    {
      hide StateAfter, Emitted, Served, Reseeds, Disciplined, Update, RequestOutput, Erased, Shows;
      var entropy := es.Entropy(ENTROPY_LEN);
      if entropy == None {
        return false;
      }
      ghost var before := StateAfter(hmac, seed, calls);
      var material := entropy.value + additional;
      LogReseed(hmac, seed, calls, material);
      UpdateState(material);
      reseedCounter := 1;
      reseeds := (reseeds + 1) % COUNTER_SPAN;
      bufN := 0;
      ZeroizeBuffer();
      calls := calls + [Call.Reseed(material)];
      ok := true;
    }

    /** Steps 3-4 of a request: V is iterated under the cached key, block by block. */
    method FillBuffer()
      requires buf.Length == CHUNK
      modifies buf, this`v
      ensures buf[..] == Temp(hmac, mac, old(v), CHUNK / 32) && v == Chain(hmac, mac, old(v), CHUNK / 32)
    {
      ghost var v0 := v;
      var off, j := 0, 0;
      while off < CHUNK
        invariant off == 32 * j <= CHUNK && buf.Length == CHUNK
        invariant v == Chain(hmac, mac, v0, j) && buf[..off] == Temp(hmac, mac, v0, j)
      {
        v := hmac(mac, v);
        forall i | 0 <= i < 32 {
          buf[off + i] := v[i];
        }
        assert buf[..off + 32] == buf[..off] + v;
        off, j := off + 32, j + 1;
      }
      assert buf[..off] == buf[..];
    }

    /** One request of the standard's machine, preceded by a reseed when the seed's budget is
        spent; if that reseed fails nothing changes. */
    method Generate() returns (ok: bool)
      requires Valid() && bufN < 4
      modifies this, buf, es
      ensures Valid() && buf == old(buf) && seed == old(seed) && emitted == old(emitted) && gen == old(gen)
      ensures var auto, reply := old(reseedCounter) > 10_000, es.script(old(es.calls));
              && ok == (!auto || reply.Filled?)
              && es.calls == old(es.calls) + (if auto then 1 else 0)
              && (ok ==> calls == old(calls) + AutoReseed(auto, reply) + [Call.Request(0)])
      ensures !ok ==> unchanged(this) && unchanged(buf)
    {
      hide StateAfter, Emitted, Served, Reseeds, Disciplined, RequestOutput, BufferHolds;
      ghost var reply := es.script(es.calls);
      if reseedCounter > RESEED_INTERVAL {
        ok := Reseed([]);
        if !ok {
          return;
        }
        ReseedRestarts(hmac, seed, old(calls), Material(reply, ENTROPY_LEN));
        assert Material(reply, ENTROPY_LEN) + [] == Material(reply, ENTROPY_LEN);
      }
      IssueRequest();
      ok := true;
    }

    /** The request itself, within the seed's budget. */
    method IssueRequest()
      requires Valid() && bufN < 4 && reseedCounter <= RESEED_INTERVAL
      modifies this, buf
      ensures Valid() && buf == old(buf) && seed == old(seed) && emitted == old(emitted) && gen == old(gen)
      ensures calls == old(calls) + [Call.Request(0)]
      ensures var last := Chain(hmac, old(key), old(v), 32);
              key == hmac(old(key), last + [0x00]) && v == hmac(key, last)
    {
      hide StateAfter, Emitted, Served, Reseeds, Disciplined, Update, Temp, Chain;
      ghost var before := StateAfter(hmac, seed, calls);
      LogRequest(hmac, seed, calls, 0);
      ShowsFresh(RequestOutput(hmac, before));
      NothingTaken(RequestOutput(hmac, before));
      FillBuffer();
      UpdateState([]);
      reseedCounter := reseedCounter + 1;
      bufN := CHUNK;
      assert (calls + [Call.Request(0)])[..|calls|] == calls;
      calls := calls + [Call.Request(0)];
    }

    /** Emits the next word of the standard's output, or None on an entropy failure. */
    method NextUint32() returns (w: Option<Word>)
      requires Valid()
      modifies this, buf, es
      ensures Valid() && buf == old(buf) && seed == old(seed)
      ensures var issued, auto, reply := old(bufN) < 4, old(reseedCounter) > 10_000, es.script(old(es.calls));
              && (w == None <==> issued && auto && reply.Failed?)
              && (w.Some? && !issued ==> IssuedLast(old(calls)) && calls == TakeOne(old(calls)))
              && (w.Some? && issued ==> calls == old(calls) + AutoReseed(auto, reply) + [Call.Request(1)])
      ensures w.Some? ==> emitted == old(emitted) + [w.value] == Emitted(hmac, seed, calls)
      ensures w == None ==> unchanged(this) && unchanged(buf)
    {
      hide StateAfter, Emitted, Served, Reseeds, Disciplined, RequestOutput;
      if bufN < 4 {
        var ok := Generate();
        if !ok {
          return None;
        }
      }
      var word := TakeWord();
      w := Some(word);
    }

    /** Reads the word at off and erases it. */
    method ReadAndErase(off: nat) returns (word: Word)
      requires off + 4 <= buf.Length
      modifies buf
      ensures word == BigEndian(old(buf[off]), old(buf[off + 1]), old(buf[off + 2]), old(buf[off + 3]))
      ensures buf[..] == EraseWord(old(buf[..]), off)
    {
      hide BigEndian;
      word := BigEndian(buf[off], buf[off + 1], buf[off + 2], buf[off + 3]);
      buf[off], buf[off + 1], buf[off + 2], buf[off + 3] := 0, 0, 0, 0;
    }

    method GenerationCount() returns (n: nat)
      requires Valid()
      ensures n == |emitted| % 0x1_0000_0000_0000_0000
    {
      n := gen;
    }

    method ReseedCount() returns (n: nat)
      requires Valid()
      ensures n == Reseeds(calls) % 0x1_0000_0000_0000_0000
    {
      n := reseeds;
    }

    method TakeWord() returns (word: Word)
      requires Valid() && bufN >= 4
      modifies this, buf
      ensures Valid() && buf == old(buf) && seed == old(seed)
      ensures IssuedLast(old(calls)) && calls == TakeOne(old(calls)) && emitted == old(emitted) + [word]
    {
      hide StateAfter, Emitted, Served, Reseeds, Disciplined, RequestOutput, BigEndian, WordAt, Shows,
        EraseWord, Erased;
      ghost var out := RequestOutput(hmac, StateAfter(hmac, seed, calls[..|calls| - 1]));
      ShowsNext(buf[..], bufN, out, calls[|calls| - 1].taken);
      LogTake(hmac, seed, calls);
      word := ReadAndErase(CHUNK - bufN);
      bufN := bufN - 4;
      gen := (gen + 1) % COUNTER_SPAN;
      assert TakeOne(calls)[..|calls| - 1] == calls[..|calls| - 1];
      calls := TakeOne(calls);
      emitted := emitted + [word];
    }
  }

  lemma {:induction false} NothingTaken(out: Bytes)
    ensures WordsOf(out, 0) == []
  {
  }

  // ---------- the standard's formulas, byte by byte ----------

  /** Section 10.1.2.2: K = HMAC(K, V || 0x00 || data) and V = HMAC(K, V), and with data once more with 0x01. */
  lemma {:induction false} UpdateBytes(hmac: Hmac, k: Block, v: Block, data: Bytes)
    ensures var (k1, v1) := Update(hmac, k, v, []);
            && k1 == hmac(k, v + [0x00]) && v1 == hmac(k1, v)
    ensures |data| > 0 ==>
              var (k2, v2) := Update(hmac, k, v, data);
              && k2 == hmac(hmac(k, v + [0x00] + data), hmac(hmac(k, v + [0x00] + data), v) + [0x01] + data)
              && v2 == hmac(k2, hmac(hmac(k, v + [0x00] + data), v))
  {
    assert v + [0] + [] == v + [0];
  }

  /** Section 10.1.2.5: the 1024 bytes of a request are HMAC(K, V), HMAC(K, HMAC(K, V)), .. */
  lemma {:induction false} RequestBytes(hmac: Hmac, st: State, j: nat)
    requires j < 32
    ensures |RequestOutput(hmac, st)| == 1024
    ensures RequestOutput(hmac, st)[32 * j..32 * j + 32] == Chain(hmac, st.k, st.v, j + 1)
    ensures Chain(hmac, st.k, st.v, j + 1) == hmac(st.k, if j == 0 then st.v else Chain(hmac, st.k, st.v, j))
  {
    TempBlock(hmac, st.k, st.v, 32, j);
  }

  lemma {:induction false} TempBlock(hmac: Hmac, k: Block, v: Block, n: nat, j: nat)
    requires j < n
    ensures 32 * j + 32 <= |Temp(hmac, k, v, n)| && Temp(hmac, k, v, n)[32 * j..32 * j + 32] == Chain(hmac, k, v, j + 1)
  {
    hide Chain;
    if j < n - 1 {
      TempBlock(hmac, k, v, n - 1, j);
      assert Temp(hmac, k, v, n)[..32 * (n - 1)] == Temp(hmac, k, v, n - 1);
      assert Temp(hmac, k, v, n)[32 * j..32 * j + 32] == Temp(hmac, k, v, n - 1)[32 * j..32 * j + 32];
    }
  }

  /** Words are read with the first byte highest. */
  lemma {:induction false} BigEndianBytes(b0: Byte, b1: Byte, b2: Byte, b3: Byte)
    ensures var w := BigEndian(b0, b1, b2, b3);
            && w / 0x100_0000 == b0 as int && w / 0x1_0000 % 0x100 == b1 as int
            && w / 0x100 % 0x100 == b2 as int && w % 0x100 == b3 as int
  {
    var x: int, y: int, z: int, n: int := b0 as int, b1 as int, b2 as int, b3 as int;
    var w := BigEndian(b0, b1, b2, b3);
    DivModUnique(w, (x * 0x100 + y) * 0x100 + z, 0x100, n);
    DivModUnique((x * 0x100 + y) * 0x100 + z, x * 0x100 + y, 0x100, z);
    DivModUnique(w, x * 0x100 + y, 0x1_0000, z * 0x100 + n);
    DivModUnique(x * 0x100 + y, x, 0x100, y);
    DivModUnique(w, x, 0x100_0000, (y * 0x100 + z) * 0x100 + n);
  }

  /** Word i of a request is read from bytes 4 * i to 4 * i + 3 of its output. */
  lemma {:induction false} WordsInOrder(bytes: Bytes, n: nat, i: nat)
    requires 4 * n <= |bytes| && i < n
    ensures WordsOf(bytes, n)[i] == BigEndian(bytes[4 * i], bytes[4 * i + 1], bytes[4 * i + 2], bytes[4 * i + 3])
  {
    hide BigEndian;
    if i < n - 1 {
      WordsInOrder(bytes, n - 1, i);
    }
  }
}
