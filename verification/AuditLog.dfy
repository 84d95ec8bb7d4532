/** The hash-chained audit log of internal/racegen/audit/log.go. JSON and SHA-256 are parameters;
    a file is the sequence of its characters. */
module AuditLog {
  import opened Options

  /** How much of the file's end is read to resume the chain. */
  const TAIL: nat := 16 * 1024

  /** Lines this long make the scanner give up. */
  const MAX_LINE: nat := 1024 * 1024

  /** An entry without its hash; payload values are kept as their JSON text. */
  datatype Stamp = Stamp(seqNo: nat, ts: int, kind: string, payload: map<string, string>, prevHash: string)

  datatype Entry = Entry(stamp: Stamp, hash: string)

  /** JSON encodings, which may fail, JSON decoding, and the hash in hexadecimal. */
  datatype Codec = Codec(stampJson: Stamp -> Option<string>, entryJson: Entry -> Option<string>,
                         parse: string -> Option<Entry>, sha: string -> string)

  /** The hash of the canonical JSON of the entry without its hash field. */
  function ComputeHash(c: Codec, s: Stamp): Option<string> {
    match c.stampJson(s)
    case None => None
    case Some(raw) => Some(c.sha(raw))
  }

  // ---------- appending ----------

  /** Where the chain stands in an open log. */
  datatype Tail = Tail(prevHash: string, seqNo: nat)

  /** The file, and the open log on it if any. */
  datatype Disk = Disk(file: string, handle: Option<Tail>)

  datatype Record = Record(kind: string, payload: map<string, string>, ts: int)

  /** A failed append leaves nothing of its line in the file, or all of it but the line break, or a part; the
      caller sees the same error each time. */
  datatype Outcome = Opened | OpenFailed | Wrote | Failed | Unended | Cut | Closed

  function NextStamp(t: Tail, r: Record): Stamp {
    Stamp(t.seqNo + 1, r.ts, r.kind, r.payload, t.prevHash)
  }

  /** The entry and line an append would write; None when hashing or encoding fails. */
  function NextLine(c: Codec, t: Tail, r: Record): Option<(Entry, string)> {
    var s := NextStamp(t, r);
    match ComputeHash(c, s)
    case None => None
    case Some(h) =>
      match c.entryJson(Entry(s, h))
      case None => None
      case Some(line) => Some((Entry(s, h), line))
  }

  /** The sequence number advances before anything can fail; the hash only after the write. Of the line and its
      line break the file takes the first `taken` characters. */
  function AppendTo(c: Codec, d: Disk, r: Record, taken: nat): (Disk, Outcome) {
    match d.handle
    case None => (d, Closed)
    case Some(t) =>
      match NextLine(c, t, r)
      case None => (d.(handle := Some(t.(seqNo := t.seqNo + 1))), Failed)
      case Some(p) =>
        if taken > |p.1| then (Disk(d.file + p.1 + "\n", Some(Tail(p.0.hash, t.seqNo + 1))), Wrote)
        else (Disk(d.file + p.1[..taken], Some(t.(seqNo := t.seqNo + 1))), Shortfall(p.1, taken))
  }

  function Shortfall(line: string, taken: nat): (o: Outcome) {
    if taken == 0 then Failed else if taken == |line| then Unended else Cut
  }

  // ---------- resuming ----------

  /** Where buf[..n] ends once trailing line breaks are dropped. */
  function TrimmedEnd(buf: string, n: nat): (r: nat)
    requires n <= |buf|
    ensures r <= n
  {
    if n > 0 && (buf[n - 1] == '\n' || buf[n - 1] == '\r') then TrimmedEnd(buf, n - 1) else n
  }

  /** Where the line that ends at n begins. */
  function LineStart(buf: string, n: nat): (r: nat)
    requires n <= |buf|
    ensures r <= n
  {
    if n > 0 && buf[n - 1] != '\n' then LineStart(buf, n - 1) else n
  }

  function TailOf(file: string): (r: string)
    ensures |r| <= |file|
  {
    file[if |file| > TAIL then |file| - TAIL else 0..]
  }

  /** The last line that is not empty, as far as it can be seen in buf. */
  function LastLine(buf: string): string {
    var end := TrimmedEnd(buf, |buf|);
    buf[LineStart(buf, end)..end]
  }

  /** Where the chain resumes; None if the last line cannot be parsed. */
  function Resume(c: Codec, file: string): Option<Tail> {
    var line := LastLine(TailOf(file));
    if line == "" then Some(Tail("", 0)) else
      match c.parse(line)
      case None => None
      case Some(e) => Some(Tail(e.hash, e.stamp.seqNo))
  }

  class File {
    var content: string

    constructor ()
      ensures content == ""
    {
      content := "";
    }
  }

  class Log {
    const c: Codec
    const f: File
    var isOpen: bool
    var prevHash: string
    var seqNo: nat

    constructor Raw(c: Codec, f: File)
      ensures this.c == c && this.f == f && isOpen && prevHash == "" && seqNo == 0
    {
      this.c, this.f, isOpen, prevHash, seqNo := c, f, true, "", 0;
    }

    ghost function Now(): Disk
      reads this, f
    {
      Disk(f.content, if isOpen then Some(Tail(prevHash, seqNo)) else None)
    }

    static method Open(c: Codec, f: File) returns (l: Log?)
      ensures l == null <==> Resume(c, f.content).None?
      ensures l != null ==> fresh(l) && l.c == c && l.f == f && l.Now() == Disk(f.content, Resume(c, f.content))
    {
      var log := new Log.Raw(c, f);
      var ok := log.ResumeChain();
      l := if ok then log else null;
    }

    method ResumeChain() returns (ok: bool)
      requires isOpen && prevHash == "" && seqNo == 0
      modifies this
      ensures isOpen && ok == Resume(c, f.content).Some?
      ensures ok ==> Now() == Disk(f.content, Resume(c, f.content))
    {
      if |f.content| == 0 {
        return true;
      }
      var buf := f.content[if |f.content| > TAIL then |f.content| - TAIL else 0..];
      var end := |buf|;
      while end > 0 && (buf[end - 1] == '\n' || buf[end - 1] == '\r')
        invariant 0 <= end <= |buf| && TrimmedEnd(buf, |buf|) == TrimmedEnd(buf, end)
      {
        end := end - 1;
      }
      var start := end;
      while start > 0 && buf[start - 1] != '\n'
        invariant 0 <= start <= end && LineStart(buf, end) == LineStart(buf, start)
      {
        start := start - 1;
      }
      if start == end {
        return true;
      }
      var last := c.parse(buf[start..end]);
      if last.None? {
        return false;
      }
      prevHash, seqNo := last.value.hash, last.value.stamp.seqNo;
      return true;
    }

    /** `taken` says how much of the line and its line break the operating system takes before it fails. */
    method Append(r: Record, taken: nat) returns (outcome: Outcome)
      modifies this, f
      ensures (Now(), outcome) == AppendTo(c, old(Now()), r, taken)
    {
      if !isOpen {
        return Closed;
      }
      seqNo := seqNo + 1;
      var s := Stamp(seqNo, r.ts, r.kind, r.payload, prevHash);
      var hash := ComputeHash(c, s);
      if hash.None? {
        return Failed;
      }
      var e := Entry(s, hash.value);
      var line := c.entryJson(e);
      if line.None? {
        return Failed;
      }
      if taken <= |line.value| {
        f.content := f.content + line.value[..taken];
        return Shortfall(line.value, taken);
      }
      f.content := f.content + line.value + "\n";
      prevHash := e.hash;
      return Wrote;
    }

    method Close()
      modifies this
      ensures Now() == Disk(f.content, None)
    {
      isOpen := false;
    }
  }

  // ---------- verification ----------

  /** The complete lines of a file, and what follows the last line break. */
  function Split(file: string): (seq<string>, string) {
    if |file| == 0 then ([], "") else
      var s, x := Split(file[..|file| - 1]), file[|file| - 1];
      if x == '\n' then (s.0 + [s.1], "") else (s.0, s.1 + [x])
  }

  function Lines(file: string): seq<string> {
    var s := Split(file);
    if s.1 == "" then s.0 else s.0 + [s.1]
  }

  datatype VerifyError = LineTooLong | BadJson | BadSequence | BadPrevHash | HashFailed | BadHash

  datatype Verdict = Accepted(count: nat, prevHash: string, prevSeq: nat) | Rejected(count: nat, error: VerifyError)

  /** Without the carriage return that the line scanner drops. */
  function Chomped(line: string): string {
    if |line| > 0 && line[|line| - 1] == '\r' then line[..|line| - 1] else line
  }

  function CheckEntry(c: Codec, v: Verdict, e: Entry): Verdict
    requires v.Accepted?
  {
    if e.stamp.seqNo != v.prevSeq + 1 then Rejected(v.count, BadSequence)
    else if e.stamp.prevHash != v.prevHash then Rejected(v.count, BadPrevHash)
    else match ComputeHash(c, e.stamp)
      case None => Rejected(v.count, HashFailed)
      case Some(want) =>
        if want != e.hash then Rejected(v.count, BadHash) else Accepted(v.count + 1, e.hash, e.stamp.seqNo)
  }

  function CheckLine(c: Codec, v: Verdict, raw: string): Verdict {
    if v.Rejected? then v
    else if |raw| >= MAX_LINE then Rejected(v.count, LineTooLong)
    else if Chomped(raw) == "" then v
    else match c.parse(Chomped(raw))
      case None => Rejected(v.count, BadJson)
      case Some(e) => CheckEntry(c, v, e)
  }

  function CheckLines(c: Codec, lines: seq<string>): Verdict {
    if |lines| == 0 then Accepted(0, "", 0)
    else CheckLine(c, CheckLines(c, lines[..|lines| - 1]), lines[|lines| - 1])
  }

  function VerifyFile(c: Codec, file: string): Verdict {
    CheckLines(c, Lines(file))
  }

  method Verify(c: Codec, file: string) returns (count: nat, error: Option<VerifyError>)
    ensures count == VerifyFile(c, file).count
    ensures error == if VerifyFile(c, file).Rejected? then Some(VerifyFile(c, file).error) else None
  {
    hide Lines, Chomped, ComputeHash, CheckLines;
    var lines := Lines(file);
    CheckedSoFar(c, lines, 0);
    var prevHash, prevSeq := "", 0;
    count := 0;
    for k := 0 to |lines|
      invariant CheckLines(c, lines[..k]) == Accepted(count, prevHash, prevSeq)
    {
      CheckedSoFar(c, lines, k + 1);
      if |lines[k]| >= MAX_LINE {
        RejectedStays(c, lines, k + 1);
        return count, Some(LineTooLong);
      }
      var line := Chomped(lines[k]);
      if line == "" {
        continue;
      }
      var parsed := c.parse(line);
      if parsed.None? {
        RejectedStays(c, lines, k + 1);
        return count, Some(BadJson);
      }
      var e := parsed.value;
      if e.stamp.seqNo != prevSeq + 1 {
        RejectedStays(c, lines, k + 1);
        return count, Some(BadSequence);
      }
      if e.stamp.prevHash != prevHash {
        RejectedStays(c, lines, k + 1);
        return count, Some(BadPrevHash);
      }
      var want := ComputeHash(c, e.stamp);
      if want.None? {
        RejectedStays(c, lines, k + 1);
        return count, Some(HashFailed);
      }
      if want.value != e.hash {
        RejectedStays(c, lines, k + 1);
        return count, Some(BadHash);
      }
      prevHash, prevSeq, count := e.hash, e.stamp.seqNo, count + 1;
    }
    assert lines[..|lines|] == lines;
    error := None;
  }

  lemma {:induction false} CheckedSoFar(c: Codec, lines: seq<string>, k: nat)
    requires k <= |lines|
    ensures CheckLines(c, lines[..k]) ==
            if k == 0 then Accepted(0, "", 0) else CheckLine(c, CheckLines(c, lines[..k - 1]), lines[k - 1])
  {
    hide CheckLine;
    if k > 0 {
      assert lines[..k][..k - 1] == lines[..k - 1];
    }
  }

  lemma {:induction false} RejectedStays(c: Codec, lines: seq<string>, k: nat)
    requires k <= |lines| && CheckLines(c, lines[..k]).Rejected?
    ensures CheckLines(c, lines) == CheckLines(c, lines[..k])
    decreases |lines|
  {
    if k < |lines| {
      assert lines[..|lines| - 1][..k] == lines[..k];
      RejectedStays(c, lines[..|lines| - 1], k);
    } else {
      assert lines[..k] == lines;
    }
  }

  // ---------- lines and the tail ----------

  /** A line as JSON encoding makes it: not empty, no line break inside, no carriage return at the end. */
  ghost predicate CleanLine(line: string) {
    |line| > 0 && line[|line| - 1] != '\r' && forall i | 0 <= i < |line| :: line[i] != '\n'
  }

  /** Nothing, or complete lines. */
  ghost predicate CompleteLines(file: string) {
    file == "" || file[|file| - 1] == '\n'
  }

  lemma {:induction false} SplitLine(file: string, line: string, k: nat)
    requires k <= |line| && Split(file).1 == "" && forall i | 0 <= i < |line| :: line[i] != '\n'
    ensures Split(file + line[..k]) == (Split(file).0, line[..k])
  {
    if k == 0 {
      assert file + line[..0] == file;
    } else {
      SplitLine(file, line, k - 1);
      assert (file + line[..k])[..|file| + k - 1] == file + line[..k - 1];
      assert line[..k] == line[..k - 1] + [line[k - 1]];
    }
  }

  /** Appending a line adds exactly that line. */
  lemma {:induction false} LinesAppend(file: string, line: string)
    requires Split(file).1 == "" && CleanLine(line)
    ensures Split(file + line + "\n") == (Split(file).0 + [line], "")
    ensures Lines(file + line + "\n") == Lines(file) + [line]
  {
    SplitLine(file, line, |line|);
    assert line[..|line|] == line;
    assert (file + line + "\n")[..|file + line|] == file + line;
  }

  lemma {:induction false} StartOfLine(buf: string, start: nat, n: nat)
    requires start <= n <= |buf| && (start == 0 || buf[start - 1] == '\n')
    requires forall i | start <= i < n :: buf[i] != '\n'
    ensures LineStart(buf, n) == start
    decreases n - start
  {
    if start < n {
      StartOfLine(buf, start, n - 1);
    }
  }

  /** The last line of a buffer that begins with a line, or inside it, and holds it to its end. */
  lemma {:induction false} LastLineOf(buf: string, before: string, line: string)
    requires buf == before + line + "\n" && CompleteLines(before) && CleanLine(line)
    ensures LastLine(buf) == line
  {
    var n := |before| + |line|;
    assert buf[n] == '\n' && |buf| == n + 1;
    assert buf[n - 1] == line[|line| - 1];
    assert TrimmedEnd(buf, n) == n;
    forall i | |before| <= i < n ensures buf[i] != '\n' {
      assert buf[i] == line[i - |before|];
    }
    assert |before| == 0 || buf[|before| - 1] == before[|before| - 1];
    StartOfLine(buf, |before|, n);
    assert buf[|before|..n] == line;
  }

  /** What the tail scan finds of the file's last line: all of it exactly when the line and its line
      break fit the tail, otherwise only its end. */
  lemma {:induction false} TailShowsLastLine(file: string, body: string, line: string)
    requires file == body + line + "\n" && CompleteLines(body) && CleanLine(line)
    ensures LastLine(TailOf(file)) == if |line| + 1 <= 16384 then line else line[|line| + 1 - 16384..]
    ensures LastLine(TailOf(file)) == line <==> |line| + 1 <= 16384
  {
    hide LastLine;
    if |file| <= TAIL {
      LastLineOf(file, body, line);
    } else {
      var off := |file| - TAIL;
      if off <= |body| {
        assert file[off..] == body[off..] + line + "\n";
        LastLineOf(file[off..], body[off..], line);
      } else {
        var rest := line[off - |body|..];
        assert file[off..] == "" + rest + "\n";
        LastLineOf(file[off..], "", rest);
      }
    }
  }

  // ---------- what a run writes ----------

  function LineOf(c: Codec, e: Entry): string {
    match c.entryJson(e)
    case None => ""
    case Some(line) => line
  }

  function Render(c: Codec, es: seq<Entry>): string {
    if |es| == 0 then "" else Render(c, es[..|es| - 1]) + LineOf(c, es[|es| - 1]) + "\n"
  }

  function LinesOf(c: Codec, es: seq<Entry>): seq<string> {
    seq(|es|, i requires 0 <= i < |es| => LineOf(c, es[i]))
  }

  /** The entry's line fits the tail and reads back as an entry with the same links, number and hash. */
  ghost predicate Good(c: Codec, e: Entry) {
    && CleanLine(LineOf(c, e)) && |LineOf(c, e)| + 1 <= TAIL
    && match c.parse(LineOf(c, e))
       case None => false
       case Some(r) => r.hash == e.hash && r.stamp.seqNo == e.stamp.seqNo && r.stamp.prevHash == e.stamp.prevHash
                       && c.stampJson(r.stamp) == c.stampJson(e.stamp)
  }

  function EndHash(es: seq<Entry>): string {
    if |es| == 0 then "" else es[|es| - 1].hash
  }

  function EndSeq(es: seq<Entry>): nat {
    if |es| == 0 then 0 else es[|es| - 1].stamp.seqNo
  }

  /** Each entry carries its own hash and the previous one's, and numbers go up, perhaps with gaps. */
  ghost predicate Linked(c: Codec, es: seq<Entry>) {
    |es| == 0 ||
    (var init, e := es[..|es| - 1], es[|es| - 1];
     && Linked(c, init) && ComputeHash(c, e.stamp) == Some(e.hash)
     && e.stamp.prevHash == EndHash(init) && e.stamp.seqNo > EndSeq(init))
  }

  lemma {:induction false} NumbersAtLeastCount(c: Codec, es: seq<Entry>)
    requires Linked(c, es)
    ensures EndSeq(es) >= |es|
  {
    if |es| > 0 {
      NumbersAtLeastCount(c, es[..|es| - 1]);
    }
  }

  lemma {:induction false} RenderedLines(c: Codec, es: seq<Entry>)
    requires forall i | 0 <= i < |es| :: Good(c, es[i])
    ensures Split(Render(c, es)).1 == "" && CompleteLines(Render(c, es))
    ensures Lines(Render(c, es)) == LinesOf(c, es)
  {
    hide Lines, Split;
    if |es| == 0 {
      NoLines();
    } else {
      var m := |es| - 1;
      RenderedLines(c, es[..m]);
      LinesAppend(Render(c, es[..m]), LineOf(c, es[m]));
      assert LinesOf(c, es) == LinesOf(c, es[..m]) + [LineOf(c, es[m])];
    }
  }

  lemma {:induction false} NoLines()
    ensures Split("") == ([], "") && Lines("") == []
  {
  }

  /** A rendered chain is accepted exactly when its numbers have no gap. */
  lemma {:induction false} AcceptedExactlyWithoutGaps(c: Codec, es: seq<Entry>)
    requires Linked(c, es) && forall i | 0 <= i < |es| :: Good(c, es[i])
    ensures EndSeq(es) == |es| ==> CheckLines(c, LinesOf(c, es)) == Accepted(|es|, EndHash(es), |es|)
    ensures EndSeq(es) != |es| ==> CheckLines(c, LinesOf(c, es)).Rejected?
  {
    hide Render, Good, CheckLine, ComputeHash, LineOf;
    if |es| > 0 {
      var m := |es| - 1;
      AcceptedExactlyWithoutGaps(c, es[..m]);
      NumbersAtLeastCount(c, es[..m]);
      assert LinesOf(c, es)[..m] == LinesOf(c, es[..m]);
      GoodLineChecked(c, CheckLines(c, LinesOf(c, es[..m])), es[m]);
    }
  }

  /** A good entry that continues the chain passes every check but perhaps that of its number. */
  lemma {:induction false} GoodLineChecked(c: Codec, v: Verdict, e: Entry)
    requires Good(c, e) && ComputeHash(c, e.stamp) == Some(e.hash)
    ensures v.Rejected? ==> CheckLine(c, v, LineOf(c, e)) == v
    ensures v.Accepted? && e.stamp.prevHash == v.prevHash ==>
              CheckLine(c, v, LineOf(c, e)) ==
                if e.stamp.seqNo == v.prevSeq + 1 then Accepted(v.count + 1, e.hash, e.stamp.seqNo)
                else Rejected(v.count, BadSequence)
  {
  }

  /** Opening a rendered file resumes its chain. */
  lemma {:induction false} ResumesAtEnd(c: Codec, es: seq<Entry>)
    requires forall i | 0 <= i < |es| :: Good(c, es[i])
    ensures Resume(c, Render(c, es)) == Some(Tail(EndHash(es), EndSeq(es)))
  {
    hide LastLine, Split, Lines;
    if |es| == 0 {
      NothingToResume();
    } else {
      var m := |es| - 1;
      RenderedLines(c, es[..m]);
      assert Good(c, es[m]);
      TailShowsLastLine(Render(c, es), Render(c, es[..m]), LineOf(c, es[m]));
    }
  }

  lemma {:induction false} LastLineUnended(buf: string, before: string, line: string)
    requires buf == before + line && CompleteLines(before) && CleanLine(line)
    ensures LastLine(buf) == line
  {
    var n := |buf|;
    assert buf[n - 1] == line[|line| - 1];
    assert TrimmedEnd(buf, n) == n;
    forall i | |before| <= i < n ensures buf[i] != '\n' {
      assert buf[i] == line[i - |before|];
    }
    assert |before| == 0 || buf[|before| - 1] == before[|before| - 1];
    StartOfLine(buf, |before|, n);
    assert buf[|before|..n] == line;
  }

  /** A last line that lacks only its break is resumed like any other. */
  lemma {:induction false} ResumesAtUnended(c: Codec, es: seq<Entry>)
    requires |es| > 0 && forall i | 0 <= i < |es| :: Good(c, es[i])
    ensures var m := |es| - 1;
            Resume(c, Render(c, es[..m]) + LineOf(c, es[m])) == Some(Tail(EndHash(es), EndSeq(es)))
  {
    hide LastLine, Split, Lines, Render;
    var m := |es| - 1;
    RenderedLines(c, es[..m]);
    assert Good(c, es[m]);
    var body, line := Render(c, es[..m]), LineOf(c, es[m]);
    var file := body + line;
    if |file| <= TAIL {
      LastLineUnended(file, body, line);
    } else {
      var off := |file| - TAIL;
      assert file[off..] == body[off..] + line;
      LastLineUnended(file[off..], body[off..], line);
    }
  }

  lemma {:induction false} NothingToResume()
    ensures LastLine(TailOf("")) == ""
  {
  }

  // ---------- runs of sessions ----------

  datatype Op = Open | Append(r: Record, taken: nat) | Close

  function Step(c: Codec, d: Disk, op: Op): (Disk, Outcome) {
    match op
    case Open =>
      (match Resume(c, d.file)
       case None => (d.(handle := None), OpenFailed)
       case Some(t) => (d.(handle := Some(t)), Opened))
    case Append(r, taken) => AppendTo(c, d, r, taken)
    case Close => (d.(handle := None), Closed)
  }

  /** A new file, and the outcomes of the operations on it. */
  function Run(c: Codec, ops: seq<Op>): (Disk, seq<Outcome>) {
    if |ops| == 0 then (Disk("", None), []) else
      var before := Run(c, ops[..|ops| - 1]);
      var after := Step(c, before.0, ops[|ops| - 1]);
      (after.0, before.1 + [after.1])
  }

  /** The entry whose line an operation brings to the file, in whole or in part. */
  function Touched(c: Codec, d: Disk, op: Op): Option<Entry> {
    if op.Append? && op.taken > 0 && d.handle.Some? && NextLine(c, d.handle.value, op.r).Some?
    then Some(NextLine(c, d.handle.value, op.r).value.0)
    else None
  }

  /** The entry that an operation brings to the file in whole. */
  function Written(c: Codec, d: Disk, op: Op): seq<Entry> {
    var e := Touched(c, d, op);
    if e.Some? && op.taken >= |LineOf(c, e.value)| then [e.value] else []
  }

  function EntriesOf(c: Codec, ops: seq<Op>): seq<Entry> {
    if |ops| == 0 then [] else
      EntriesOf(c, ops[..|ops| - 1]) + Written(c, Run(c, ops[..|ops| - 1]).0, ops[|ops| - 1])
  }

  /** All lines of the run are good ones. */
  ghost predicate AllGood(c: Codec, ops: seq<Op>) {
    |ops| == 0 ||
    (var e := Touched(c, Run(c, ops[..|ops| - 1]).0, ops[|ops| - 1]);
     AllGood(c, ops[..|ops| - 1]) && (e.Some? ==> Good(c, e.value)))
  }

  predicate Complete(o: Outcome) {
    o.Wrote? || o.Unended?
  }

  /** A failed append directly followed by one that brings its whole line to the file. */
  ghost predicate Torn(outcomes: seq<Outcome>) {
    exists i :: 0 <= i < |outcomes| - 1 && outcomes[i] == Failed && Complete(outcomes[i + 1])
  }

  /** Where the file ends: after complete lines, after a line without its break, or beyond a part of a line that
      is followed by nothing or by another line. */
  datatype Ending = Whole | Pending | Broken

  function EndingAfter(before: Ending, o: Outcome): Ending {
    if before.Broken? || o.Cut? || (before.Pending? && Complete(o)) then Broken
    else if o.Unended? then Pending
    else before
  }

  function EndingOf(outcomes: seq<Outcome>): Ending {
    if |outcomes| == 0 then Whole
    else EndingAfter(EndingOf(outcomes[..|outcomes| - 1]), outcomes[|outcomes| - 1])
  }

  /** Some append left a part of its line, or left its line without the break and another line came after it. */
  ghost predicate Garbled(outcomes: seq<Outcome>) {
    || (exists i :: 0 <= i < |outcomes| && outcomes[i] == Cut)
    || (exists i, j :: 0 <= i < j < |outcomes| && outcomes[i] == Unended && Complete(outcomes[j]))
  }

  lemma {:induction false} GarbledExactlyWhenBroken(outcomes: seq<Outcome>)
    ensures Garbled(outcomes) <==> EndingOf(outcomes) == Broken
    ensures EndingOf(outcomes) == Whole ==> forall i | 0 <= i < |outcomes| :: outcomes[i] != Unended
    ensures EndingOf(outcomes) == Pending ==> exists i :: 0 <= i < |outcomes| && outcomes[i] == Unended
  {
    if |outcomes| > 0 {
      var n := |outcomes| - 1;
      var before := outcomes[..n];
      GarbledExactlyWhenBroken(before);
      assert forall i | 0 <= i < n :: outcomes[i] == before[i];
      if Garbled(before) {
        assert Garbled(outcomes);
      } else if EndingOf(before) == Pending {
        var i :| 0 <= i < |before| && before[i] == Unended;
        assert outcomes[i] == Unended;
      }
    }
  }

  function CountWrote(outcomes: seq<Outcome>): nat {
    if |outcomes| == 0 then 0
    else CountWrote(outcomes[..|outcomes| - 1]) + if Complete(outcomes[|outcomes| - 1]) then 1 else 0
  }

  lemma {:induction false} TornAppend(outcomes: seq<Outcome>, o: Outcome)
    ensures Torn(outcomes + [o]) <==>
              Torn(outcomes) || (|outcomes| > 0 && outcomes[|outcomes| - 1] == Failed && Complete(o))
    ensures CountWrote(outcomes + [o]) == CountWrote(outcomes) + if Complete(o) then 1 else 0
    ensures EndingOf(outcomes + [o]) == EndingAfter(EndingOf(outcomes), o)
  {
    assert (outcomes + [o])[..|outcomes|] == outcomes;
    if Torn(outcomes) {
      var i :| 0 <= i < |outcomes| - 1 && outcomes[i] == Failed && Complete(outcomes[i + 1]);
      assert (outcomes + [o])[i] == Failed && Complete((outcomes + [o])[i + 1]);
    }
    if |outcomes| > 0 && outcomes[|outcomes| - 1] == Failed && Complete(o) {
      assert (outcomes + [o])[|outcomes| - 1] == Failed && Complete((outcomes + [o])[|outcomes| - 1 + 1]);
    }
  }

  // ---------- parts of lines ----------

  /** Beginnings of lines, one after the other. */
  ghost predicate Pieces(c: Codec, x: string)
    decreases |x|
  {
    x == "" || exists e: Entry, k: nat :: LastPiece(c, x, e, k) && Pieces(c, x[..|x| - k])
  }

  ghost predicate LastPiece(c: Codec, x: string, e: Entry, k: nat) {
    0 < k <= |x| && IsPiece(c, e, x[|x| - k..])
  }

  ghost predicate IsPiece(c: Codec, e: Entry, y: string) {
    CleanLine(LineOf(c, e)) && 0 < |y| <= |LineOf(c, e)| && y == LineOf(c, e)[..|y|]
  }

  lemma {:induction false} OneMorePiece(c: Codec, x: string, e: Entry, y: string)
    requires Pieces(c, x) && IsPiece(c, e, y)
    ensures Pieces(c, x + y)
  {
    var z := x + y;
    assert z[|z| - |y|..] == y && z[..|z| - |y|] == x;
    assert LastPiece(c, z, e, |y|);
  }

  lemma {:induction false} PiecesHaveNoBreak(c: Codec, x: string)
    requires Pieces(c, x)
    ensures forall i | 0 <= i < |x| :: x[i] != '\n'
    decreases |x|
  {
    hide IsPiece;
    if x != "" {
      var e: Entry, k: nat :| LastPiece(c, x, e, k) && Pieces(c, x[..|x| - k]);
      PiecesHaveNoBreak(c, x[..|x| - k]);
      PieceHasNoBreak(c, e, x[|x| - k..]);
      assert x == x[..|x| - k] + x[|x| - k..];
    }
  }

  lemma {:induction false} PieceHasNoBreak(c: Codec, e: Entry, y: string)
    requires IsPiece(c, e, y)
    ensures forall i | 0 <= i < |y| :: y[i] != '\n'
  {
  }

  /** The beginning y of a line and further beginnings of lines x, which together are not that line. */
  ghost predicate Jumble(c: Codec, e: Entry, y: string, x: string) {
    IsPiece(c, e, y) && Pieces(c, x) && (x == "" ==> y != LineOf(c, e))
  }

  /** What decoding a line-based format of objects promises: a part of a line, or a line with parts of lines behind
      it, does not decode. */
  ghost predicate Brittle(c: Codec) {
    forall e: Entry, y: string, x: string | Jumble(c, e, y, x) ::
      Chomped(y + x) != "" && c.parse(Chomped(y + x)).None?
  }

  /** A jumble, still open at the end or ended by a line break and followed by anything. */
  ghost predicate Junk(c: Codec, g: string, e: Entry, y: string, x: string, rest: string) {
    Jumble(c, e, y, x) && ((rest == "" && g == y + x) || g == y + x + "\n" + rest)
  }

  /** Good lines, and then junk. */
  ghost predicate Spoiled(c: Codec, file: string) {
    exists es: seq<Entry>, g: string, e: Entry, y: string, x: string, rest: string ::
      (forall i | 0 <= i < |es| :: Good(c, es[i])) && file == Render(c, es) + g && Junk(c, g, e, y, x, rest)
  }

  lemma {:induction false} SpoiledBy(c: Codec, es: seq<Entry>, g: string, e: Entry, y: string, x: string, rest: string)
    requires forall i | 0 <= i < |es| :: Good(c, es[i])
    requires Junk(c, g, e, y, x, rest)
    ensures Spoiled(c, Render(c, es) + g)
  {
  }

  lemma {:induction false} SpoiledShows(c: Codec, file: string)
    requires Spoiled(c, file)
    ensures exists es: seq<Entry>, g: string, e: Entry, y: string, x: string, rest: string ::
      (forall i | 0 <= i < |es| :: Good(c, es[i])) && file == Render(c, es) + g && Junk(c, g, e, y, x, rest)
  {
  }

  /** Whatever an append brings to a spoiled file, it stays spoiled. */
  lemma {:induction false} SpoiledStays(c: Codec, file: string, e2: Entry, added: string)
    requires Spoiled(c, file) && CleanLine(LineOf(c, e2))
    requires added == LineOf(c, e2) + "\n" || IsPiece(c, e2, added)
    ensures Spoiled(c, file + added)
  {
    hide Good, Render, Pieces, Spoiled, LineOf, CleanLine;
    SpoiledShows(c, file);
    var es: seq<Entry>, g: string, e: Entry, y: string, x: string, rest: string :|
      (forall i | 0 <= i < |es| :: Good(c, es[i])) && file == Render(c, es) + g && Junk(c, g, e, y, x, rest);
    assert file + added == Render(c, es) + (g + added);
    if g == y + x + "\n" + rest {
      assert g + added == y + x + "\n" + (rest + added);
      SpoiledBy(c, es, g + added, e, y, x, rest + added);
    } else {
      var line := LineOf(c, e2);
      if added == line + "\n" {
        WholePiece(c, e2);
        JumbleGrows(c, e, y, x, e2, line);
        assert g + added == y + (x + line) + "\n" + "";
        SpoiledBy(c, es, g + added, e, y, x + line, "");
      } else {
        JumbleGrows(c, e, y, x, e2, added);
        assert g + added == y + (x + added);
        SpoiledBy(c, es, g + added, e, y, x + added, "");
      }
    }
  }

  lemma {:induction false} WholePiece(c: Codec, e: Entry)
    requires CleanLine(LineOf(c, e))
    ensures IsPiece(c, e, LineOf(c, e))
  {
    assert LineOf(c, e)[..|LineOf(c, e)|] == LineOf(c, e);
  }

  lemma {:induction false} JumbleGrows(c: Codec, e: Entry, y: string, x: string, e2: Entry, added: string)
    requires IsPiece(c, e, y) && Pieces(c, x) && IsPiece(c, e2, added)
    ensures Jumble(c, e, y, x + added)
  {
    OneMorePiece(c, x, e2, added);
  }

  /** Text without a break after complete lines is one more line. */
  lemma {:induction false} LinesUnended(file: string, line: string)
    requires Split(file).1 == "" && line != "" && forall i | 0 <= i < |line| :: line[i] != '\n'
    ensures Lines(file + line) == Lines(file) + [line]
  {
    SplitLine(file, line, |line|);
    assert line[..|line|] == line;
  }

  lemma {:induction false} SplitKeepsLines(file: string, rest: string)
    ensures |Split(file).0| <= |Split(file + rest).0|
    ensures Split(file + rest).0[..|Split(file).0|] == Split(file).0
    decreases |rest|
  {
    if rest == "" {
      assert file + rest == file;
    } else {
      var m := |rest| - 1;
      SplitKeepsLines(file, rest[..m]);
      assert (file + rest)[..|file| + m] == file + rest[..m];
    }
  }

  lemma {:induction false} JumbleHasNoBreak(c: Codec, e: Entry, y: string, x: string)
    requires Jumble(c, e, y, x)
    ensures y + x != "" && forall i | 0 <= i < |y + x| :: (y + x)[i] != '\n'
  {
    PiecesHaveNoBreak(c, x);
  }

  lemma {:induction false} SpoiledIsRejected(c: Codec, file: string)
    requires Spoiled(c, file) && Brittle(c)
    ensures VerifyFile(c, file).Rejected?
  {
    hide Good, Render, Split, Lines, CheckLines, Jumble, Brittle;
    var es: seq<Entry>, g: string, e: Entry, y: string, x: string, rest: string :|
      (forall i | 0 <= i < |es| :: Good(c, es[i])) && file == Render(c, es) + g && Junk(c, g, e, y, x, rest);
    RenderedLines(c, es);
    JumbleHasNoBreak(c, e, y, x);
    var line := y + x;
    JumbleRejected(c, LinesOf(c, es), e, y, x);
    if rest == "" && g == y + x {
      LinesUnended(Render(c, es), line);
    } else {
      LinesEnded(Render(c, es), line);
      assert file == Render(c, es) + line + "\n" + rest;
      SplitKeepsLines(Render(c, es) + line + "\n", rest);
      LinesOfSplit(file, |es| + 1, LinesOf(c, es) + [line]);
      RejectedStays(c, Lines(file), |es| + 1);
    }
  }

  lemma {:induction false} LinesEnded(file: string, line: string)
    requires Split(file).1 == "" && forall i | 0 <= i < |line| :: line[i] != '\n'
    ensures Split(file + line + "\n") == (Lines(file) + [line], "")
  {
    SplitLine(file, line, |line|);
    assert line[..|line|] == line;
    assert (file + line + "\n")[..|file + line|] == file + line;
  }

  lemma {:induction false} LinesOfSplit(file: string, k: nat, first: seq<string>)
    requires k <= |Split(file).0| && Split(file).0[..k] == first
    ensures k <= |Lines(file)| && Lines(file)[..k] == first
  {
    hide Split;
  }

  lemma {:induction false} JumbleRejected(c: Codec, before: seq<string>, e: Entry, y: string, x: string)
    requires Jumble(c, e, y, x) && Brittle(c)
    ensures CheckLines(c, before + [y + x]).Rejected?
  {
    hide Jumble, Chomped;
    assert (before + [y + x])[..|before|] == before;
  }

  // ---------- what a run keeps ----------

  /** The complete lines of the entries; or all but the last line's break. */
  ghost predicate Holds(c: Codec, file: string, es: seq<Entry>, ending: Ending) {
    if ending.Pending? then |es| > 0 && file == Render(c, es[..|es| - 1]) + LineOf(c, es[|es| - 1])
    else file == Render(c, es)
  }

  /** The file holds the entries, the open log stands at their end, and its number is ahead of the last
      entry's exactly after a failed append. */
  ghost predicate Consistent(c: Codec, d: Disk, es: seq<Entry>, outcomes: seq<Outcome>) {
    && Holds(c, d.file, es, EndingOf(outcomes)) && Linked(c, es) && |es| == CountWrote(outcomes)
    && (forall i | 0 <= i < |es| :: Good(c, es[i]))
    && (EndSeq(es) == |es| <==> !Torn(outcomes))
    && (d.handle.Some? && EndingOf(outcomes) == Whole ==>
          && d.handle.value.prevHash == EndHash(es)
          && d.handle.value.seqNo >= EndSeq(es)
          && (d.handle.value.seqNo > EndSeq(es) <==> |outcomes| > 0 && outcomes[|outcomes| - 1] == Failed))
  }

  ghost predicate Kept(c: Codec, d: Disk, es: seq<Entry>, outcomes: seq<Outcome>) {
    if EndingOf(outcomes) == Broken then Spoiled(c, d.file) else Consistent(c, d, es, outcomes)
  }

  /** What a step brings to the file, and how it ends. */
  lemma {:induction false} StepAdds(c: Codec, d: Disk, op: Op)
    ensures var (e, (after, o)) := (Touched(c, d, op), Step(c, d, op));
            if e.None? then after.file == d.file && o !in {Wrote, Unended, Cut}
            else
              var line := LineOf(c, e.value);
              if op.taken > |line| then o == Wrote && after.file == d.file + line + "\n"
              else after.file == d.file + line[..op.taken] && o == if op.taken == |line| then Unended else Cut
    ensures Complete(Step(c, d, op).1) <==> |Written(c, d, op)| == 1
  {
    hide Resume, ComputeHash;
    if op.Append? && d.handle.Some? && NextLine(c, d.handle.value, op.r).Some? && op.taken == 0 {
      assert d.file + NextLine(c, d.handle.value, op.r).value.1[..0] == d.file;
    }
  }

  /** From complete lines, or a line without its break, to the next state. */
  lemma {:induction false} StepKeeps(c: Codec, d: Disk, es: seq<Entry>, outcomes: seq<Outcome>, op: Op)
    requires Kept(c, d, es, outcomes)
    requires Touched(c, d, op).Some? ==> Good(c, Touched(c, d, op).value)
    ensures Kept(c, Step(c, d, op).0, es + Written(c, d, op), outcomes + [Step(c, d, op).1])
    ensures EndingOf(outcomes) != Broken ==> Step(c, d, op).1 != OpenFailed
  {
    hide Step, Torn, CountWrote, Good, Render, Linked, Touched, Written, Consistent, Spoiled, EndingOf;
    var o := Step(c, d, op).1;
    TornAppend(outcomes, o);
    StepAdds(c, d, op);
    var ending := EndingOf(outcomes);
    if EndingAfter(ending, o) == Broken {
      BreakingStep(c, d, es, outcomes, op);
    } else if ending == Whole {
      WholeStep(c, d, es, outcomes, op);
    } else {
      PendingStep(c, d, es, outcomes, op);
    }
    if ending != Broken {
      OpensAgain(c, d, es, outcomes, op);
    }
  }

  lemma {:induction false} OpensAgain(c: Codec, d: Disk, es: seq<Entry>, outcomes: seq<Outcome>, op: Op)
    requires Consistent(c, d, es, outcomes)
    ensures Resume(c, d.file) == Some(Tail(EndHash(es), EndSeq(es))) && Step(c, d, op).1 != OpenFailed
  {
    hide Resume, Torn, CountWrote, Good, Render, Linked, ComputeHash, EndingOf;
    if EndingOf(outcomes) == Pending {
      ResumesAtUnended(c, es);
    } else {
      ResumesAtEnd(c, es);
    }
  }

  lemma {:induction false} BreakingStep(c: Codec, d: Disk, es: seq<Entry>, outcomes: seq<Outcome>, op: Op)
    requires Kept(c, d, es, outcomes) && EndingAfter(EndingOf(outcomes), Step(c, d, op).1) == Broken
    requires Touched(c, d, op).Some? ==> Good(c, Touched(c, d, op).value)
    ensures Spoiled(c, Step(c, d, op).0.file)
  {
    hide Step, Torn, CountWrote, Good, Render, Linked, Touched, Written, EndingOf, Spoiled;
    StepAdds(c, d, op);
    if Touched(c, d, op).Some? {
      var e := Touched(c, d, op).value;
      TouchedTakes(c, d, op);
      GoodIsClean(c, e);
      var line := LineOf(c, e);
      var added := if op.taken > |line| then line + "\n" else line[..op.taken];
      assert d.file + line + "\n" == d.file + (line + "\n");
      if EndingOf(outcomes) == Broken {
        SpoiledStays(c, d.file, e, added);
      } else if EndingOf(outcomes) == Pending {
        var m := |es| - 1;
        GoodIsClean(c, es[m]);
        BreakPending(c, es[..m], es[m], e, added);
        assert d.file + added == Render(c, es[..m]) + (LineOf(c, es[m]) + added);
      } else {
        NoPieces(c);
        assert added + "" == added;
        SpoiledBy(c, es, added, e, added, "", "");
      }
    }
  }

  lemma {:induction false} BreakPending(c: Codec, es: seq<Entry>, last: Entry, e: Entry, added: string)
    requires (forall i | 0 <= i < |es| :: Good(c, es[i])) && CleanLine(LineOf(c, last)) && CleanLine(LineOf(c, e))
    requires added == LineOf(c, e) + "\n" || IsPiece(c, e, added)
    ensures Spoiled(c, Render(c, es) + (LineOf(c, last) + added))
  {
    hide Good, Render, Jumble, Spoiled, Pieces;
    var y, line := LineOf(c, last), LineOf(c, e);
    assert y[..|y|] == y && line[..|line|] == line;
    var x := if added == line + "\n" then line else added;
    NoPieces(c);
    JumbleGrows(c, last, y, "", e, x);
    assert "" + x == x;
    if added == line + "\n" {
      assert y + added == y + x + "\n" + "";
    }
    SpoiledBy(c, es, y + added, last, y, x, "");
  }

  lemma {:induction false} NoPieces(c: Codec)
    ensures Pieces(c, "")
  {
  }

  lemma {:induction false} GoodIsClean(c: Codec, e: Entry)
    requires Good(c, e)
    ensures CleanLine(LineOf(c, e)) && |LineOf(c, e)| + 1 <= TAIL
  {
  }

  lemma {:induction false} TouchedTakes(c: Codec, d: Disk, op: Op)
    requires Touched(c, d, op).Some?
    ensures op.Append? && op.taken > 0 && d.handle.Some?
  {
  }

  lemma {:induction false} WholeStep(c: Codec, d: Disk, es: seq<Entry>, outcomes: seq<Outcome>, op: Op)
    requires Consistent(c, d, es, outcomes) && EndingOf(outcomes) == Whole && Step(c, d, op).1 != Cut
    requires Touched(c, d, op).Some? ==> Good(c, Touched(c, d, op).value)
    ensures Consistent(c, Step(c, d, op).0, es + Written(c, d, op), outcomes + [Step(c, d, op).1])
  {
    hide Resume, Torn, CountWrote, Good, Render, Linked, ComputeHash, EndingOf;
    var s := Step(c, d, op);
    TornAppend(outcomes, s.1);
    StepAdds(c, d, op);
    ResumesAtEnd(c, es);
    NumbersAtLeastCount(c, es);
    if Written(c, d, op) == [] {
      assert es + Written(c, d, op) == es;
    } else {
      LinkNext(c, d.handle.value, es, op.r);
      var e := Written(c, d, op)[0];
      assert es + Written(c, d, op) == es + [e] && (es + [e])[..|es|] == es;
      assert LineOf(c, e)[..|LineOf(c, e)|] == LineOf(c, e);
    }
  }

  lemma {:induction false} PendingStep(c: Codec, d: Disk, es: seq<Entry>, outcomes: seq<Outcome>, op: Op)
    requires Consistent(c, d, es, outcomes) && EndingOf(outcomes) == Pending && Step(c, d, op).1 != Cut
    requires !Complete(Step(c, d, op).1)
    ensures Consistent(c, Step(c, d, op).0, es + Written(c, d, op), outcomes + [Step(c, d, op).1])
  {
    hide Step, Touched, Written, Torn, CountWrote, Good, Render, Linked, EndingOf;
    TornAppend(outcomes, Step(c, d, op).1);
    StepAdds(c, d, op);
    WrittenAtMostOne(c, d, op);
    assert es + [] == es;
  }

  lemma {:induction false} WrittenAtMostOne(c: Codec, d: Disk, op: Op)
    ensures |Written(c, d, op)| <= 1
  {
  }

  /** What a successful append adds continues the chain. */
  lemma {:induction false} LinkNext(c: Codec, t: Tail, es: seq<Entry>, r: Record)
    requires Linked(c, es) && t.prevHash == EndHash(es) && t.seqNo >= EndSeq(es) && NextLine(c, t, r).Some?
    ensures var (e, line) := NextLine(c, t, r).value;
            && Linked(c, es + [e]) && EndSeq(es + [e]) == t.seqNo + 1 && EndHash(es + [e]) == e.hash
            && LineOf(c, e) == line && Render(c, es + [e]) == Render(c, es) + line + "\n"
  {
    var e := NextLine(c, t, r).value.0;
    assert (es + [e])[..|es|] == es;
  }

  lemma {:induction false} RunKept(c: Codec, ops: seq<Op>)
    requires AllGood(c, ops)
    ensures Kept(c, Run(c, ops).0, EntriesOf(c, ops), Run(c, ops).1)
    ensures EndingOf(Run(c, ops).1) != Broken ==>
              forall i | 0 <= i < |Run(c, ops).1| :: Run(c, ops).1[i] != OpenFailed
  {
    hide Step, Written, Touched, Good, EndingOf;
    if |ops| == 0 {
      EmptyRun(c);
    } else {
      var m := |ops| - 1;
      RunKept(c, ops[..m]);
      var before := Run(c, ops[..m]);
      StepKeeps(c, before.0, EntriesOf(c, ops[..m]), before.1, ops[m]);
      TornAppend(before.1, Step(c, before.0, ops[m]).1);
    }
  }

  lemma {:induction false} EmptyRun(c: Codec)
    ensures Kept(c, Disk("", None), [], [])
  {
  }

  /** Any number of sessions on a new file, with appends that may fail after any part of their line, and lines
      that fit the tail. Verify accepts the file exactly when no failed append was directly followed by a line,
      no part of a line was left behind, and no line came after one without its break; then it counts all
      lines. Unless the file is garbled, every open succeeds. */
  lemma {:induction false} AcceptedExactlyWhenNotTorn(c: Codec, ops: seq<Op>)
    requires AllGood(c, ops) && Brittle(c)
    ensures var (d, outcomes) := Run(c, ops);
            && (VerifyFile(c, d.file).Accepted? <==> !Torn(outcomes) && !Garbled(outcomes))
            && (VerifyFile(c, d.file).Accepted? ==> VerifyFile(c, d.file).count == CountWrote(outcomes))
            && (!Garbled(outcomes) ==> forall i | 0 <= i < |outcomes| :: outcomes[i] != OpenFailed)
  {
    hide Torn, Garbled, CountWrote, Run, EntriesOf, CheckLines, Lines, LinesOf, Good, Brittle, EndingOf, Spoiled;
    RunKept(c, ops);
    var (d, outcomes) := Run(c, ops);
    GarbledExactlyWhenBroken(outcomes);
    if EndingOf(outcomes) == Broken {
      SpoiledIsRejected(c, d.file);
    } else {
      HeldLines(c, d.file, EntriesOf(c, ops), EndingOf(outcomes));
      AcceptedExactlyWithoutGaps(c, EntriesOf(c, ops));
    }
  }

  lemma {:induction false} HeldLines(c: Codec, file: string, es: seq<Entry>, ending: Ending)
    requires Holds(c, file, es, ending) && forall i | 0 <= i < |es| :: Good(c, es[i])
    ensures Lines(file) == LinesOf(c, es)
  {
    hide Good, Lines, Split, Render;
    RenderedLines(c, es);
    if ending == Pending {
      var m := |es| - 1;
      RenderedLines(c, es[..m]);
      GoodIsClean(c, es[m]);
      LinesUnended(Render(c, es[..m]), LineOf(c, es[m]));
      assert LinesOf(c, es) == LinesOf(c, es[..m]) + [LineOf(c, es[m])];
    }
  }

  /** Parsing recognises no proper end of an entry's line. */
  ghost predicate EndsUnparsable(c: Codec, line: string) {
    forall k | 0 < k < |line| :: c.parse(line[k..]).None?
  }

  /** A log whose last line is too long for the tail cannot be opened again. */
  lemma {:induction false} ReopensExactlyWhenLastLineFits(c: Codec, body: string, line: string)
    requires CompleteLines(body) && CleanLine(line) && c.parse(line).Some? && EndsUnparsable(c, line)
    ensures Resume(c, body + line + "\n").Some? <==> |line| + 1 <= 16384
  {
    hide LastLine;
    TailShowsLastLine(body + line + "\n", body, line);
  }

  // ---------- one torn run ----------

  const NOTHING: Record := Record("", map[], 0)

  /** A codec with a single line. */
  const SAMPLE: Codec :=
    Codec(s => Some("s"), e => Some("e"),
          line => if line == "e" then Some(Entry(Stamp(2, 0, "", map[], ""), "h")) else None, x => "h")

  /** The first append fails, the second succeeds: the file holds one line, numbered 2, and Verify rejects it. The
      codec and the run meet all that AcceptedExactlyWhenNotTorn asks of them. */
  lemma {:induction false} FailedThenWritten()
    ensures var ops := [Open, Append(NOTHING, 0), Append(NOTHING, 2)];
            var (d, outcomes) := Run(SAMPLE, ops);
            && AllGood(SAMPLE, ops) && Brittle(SAMPLE) && outcomes == [Opened, Failed, Wrote] && Torn(outcomes)
            && d.file == "e\n" && VerifyFile(SAMPLE, d.file) == Rejected(0, BadSequence)
  {
    hide Run, Step, VerifyFile, Torn, AllGood, Brittle, Good, Touched;
    SampleSteps();
    SampleIsBrittle();
    SampleIsGood();
    var one, two, three := [Open], [Open, Append(NOTHING, 0)], [Open, Append(NOTHING, 0), Append(NOTHING, 2)];
    assert [] + [Open] == one && one + [Append(NOTHING, 0)] == two && two + [Append(NOTHING, 2)] == three;
    RunNext(SAMPLE, [], Open);
    RunNext(SAMPLE, one, Append(NOTHING, 0));
    RunNext(SAMPLE, two, Append(NOTHING, 2));
    AllGoodNext(SAMPLE, [], Open);
    AllGoodNext(SAMPLE, one, Append(NOTHING, 0));
    AllGoodNext(SAMPLE, two, Append(NOTHING, 2));
    var outcomes := [Opened, Failed, Wrote];
    assert [] + [Opened] + [Failed] + [Wrote] == outcomes;
    TornAt(outcomes, 1);
  }

  lemma {:induction false} AllGoodNext(c: Codec, ops: seq<Op>, op: Op)
    ensures AllGood(c, [])
    ensures var e := Touched(c, Run(c, ops).0, op);
            AllGood(c, ops + [op]) <==> AllGood(c, ops) && (e.Some? ==> Good(c, e.value))
  {
    hide Touched, Good, Run;
    assert (ops + [op])[..|ops|] == ops;
  }

  lemma {:induction false} SampleIsGood()
    ensures Touched(SAMPLE, Disk("", None), Open).None?
    ensures Touched(SAMPLE, Disk("", Some(Tail("", 0))), Append(NOTHING, 0)).None?
    ensures var e := Touched(SAMPLE, Disk("", Some(Tail("", 1))), Append(NOTHING, 2));
            e.Some? && Good(SAMPLE, e.value)
  {
  }

  lemma {:induction false} TornAt(outcomes: seq<Outcome>, i: nat)
    requires i + 1 < |outcomes| && outcomes[i] == Failed && Complete(outcomes[i + 1])
    ensures Torn(outcomes)
  {
  }

  lemma {:induction false} RunNext(c: Codec, ops: seq<Op>, op: Op)
    ensures Run(c, []) == (Disk("", None), [])
    ensures var (d, outcomes) := Run(c, ops);
            Run(c, ops + [op]) == (Step(c, d, op).0, outcomes + [Step(c, d, op).1])
  {
    hide Step;
    assert (ops + [op])[..|ops|] == ops;
  }

  lemma {:induction false} SampleSteps()
    ensures Step(SAMPLE, Disk("", None), Open) == (Disk("", Some(Tail("", 0))), Opened)
    ensures Step(SAMPLE, Disk("", Some(Tail("", 0))), Append(NOTHING, 0)) == (Disk("", Some(Tail("", 1))), Failed)
    ensures Step(SAMPLE, Disk("", Some(Tail("", 1))), Append(NOTHING, 2)) == (Disk("e\n", Some(Tail("h", 2))), Wrote)
    ensures VerifyFile(SAMPLE, "e\n") == Rejected(0, BadSequence)
  {
    hide Lines, TailOf, LastLine;
    NothingToResume();
    OneLine();
    assert "" + "e"[..0] == "" && "" + "e" + "\n" == "e\n";
    assert ["e"][..0] == [];
  }

  lemma {:induction false} OneLine()
    ensures Lines("e\n") == ["e"]
  {
    NoLines();
    LinesAppend("", "e");
    assert "" + "e" + "\n" == "e\n";
  }

  /** The sample meets what the theorem asks of a codec. */
  lemma {:induction false} SampleIsBrittle()
    ensures Brittle(SAMPLE)
  {
    forall e: Entry, y: string, x: string | Jumble(SAMPLE, e, y, x)
      ensures Chomped(y + x) != "" && SAMPLE.parse(Chomped(y + x)).None?
    {
      assert LineOf(SAMPLE, e) == "e" && y == "e";
      assert x != "";
      var d: Entry, k: nat :| LastPiece(SAMPLE, x, d, k) && Pieces(SAMPLE, x[..|x| - k]);
      assert LineOf(SAMPLE, d) == "e" && k == 1 && x[|x| - 1..] == "e";
      assert x[|x| - 1] == x[|x| - 1..][0] == 'e';
      assert (y + x)[|y + x| - 1] == x[|x| - 1];
    }
  }

  // ---------- tampering ----------

  /** The entries a file holds; lines that are blank or do not parse hold none. */
  function Parsed(c: Codec, lines: seq<string>): seq<Entry> {
    if |lines| == 0 then [] else
      var before, line := Parsed(c, lines[..|lines| - 1]), Chomped(lines[|lines| - 1]);
      if line == "" || c.parse(line).None? then before else before + [c.parse(line).value]
  }

  /** Linked, and numbered 1, 2, 3, ... */
  ghost predicate Chained(c: Codec, es: seq<Entry>) {
    Linked(c, es) && EndSeq(es) == |es|
  }

  lemma {:induction false} AcceptedIsChained(c: Codec, lines: seq<string>)
    requires CheckLines(c, lines).Accepted?
    ensures var es := Parsed(c, lines);
            && (forall e | e in es :: OwnHash(c, e))
            && Chained(c, es) && CheckLines(c, lines) == Accepted(|es|, EndHash(es), |es|)
  {
    hide CheckLine, Linked, Chomped;
    if |lines| > 0 {
      var m := |lines| - 1;
      AcceptedLine(c, CheckLines(c, lines[..m]), lines[m]);
      AcceptedIsChained(c, lines[..m]);
      var line := Chomped(lines[m]);
      if line != "" {
        ChainedNext(c, Parsed(c, lines[..m]), c.parse(line).value);
      }
    } else {
      NoChain(c);
    }
    LinkedHashes(c, Parsed(c, lines));
  }

  lemma {:induction false} NoChain(c: Codec)
    ensures Chained(c, [])
  {
  }

  /** An accepted line is blank, or an entry that continues the chain. */
  lemma {:induction false} AcceptedLine(c: Codec, v: Verdict, raw: string)
    requires CheckLine(c, v, raw).Accepted?
    ensures v.Accepted? && (Chomped(raw) == "" ==> CheckLine(c, v, raw) == v)
    ensures Chomped(raw) != "" ==>
              && c.parse(Chomped(raw)).Some?
              && var e := c.parse(Chomped(raw)).value;
                 && e.stamp.seqNo == v.prevSeq + 1 && e.stamp.prevHash == v.prevHash
                 && ComputeHash(c, e.stamp) == Some(e.hash)
                 && CheckLine(c, v, raw) == Accepted(v.count + 1, e.hash, e.stamp.seqNo)
  {
    hide Chomped, ComputeHash;
  }

  lemma {:induction false} ChainedNext(c: Codec, es: seq<Entry>, e: Entry)
    requires Chained(c, es) && e.stamp.seqNo == EndSeq(es) + 1 && e.stamp.prevHash == EndHash(es)
    requires ComputeHash(c, e.stamp) == Some(e.hash)
    ensures Chained(c, es + [e]) && EndHash(es + [e]) == e.hash && EndSeq(es + [e]) == |es| + 1 == |es + [e]|
  {
    hide ComputeHash;
    assert (es + [e])[..|es|] == es;
  }

  /** Two of the entries carry the same hash and yet differ, or one carries no hash. */
  ghost predicate HashesFail(a: seq<Entry>, b: seq<Entry>) {
    || (exists i, j :: 0 <= i < |a| && 0 <= j < |b| && a[i].hash == b[j].hash && a[i].stamp != b[j].stamp)
    || (exists i :: 0 <= i < |a| && a[i].hash == "")
    || (exists i :: 0 <= i < |b| && b[i].hash == "")
  }

  lemma {:induction false} SameEndSameChain(c: Codec, a: seq<Entry>, b: seq<Entry>)
    requires Linked(c, a) && Linked(c, b) && EndHash(a) == EndHash(b)
    ensures a == b || HashesFail(a, b)
    decreases |a|
  {
    hide ComputeHash, HashesFail, Linked;
    LastHashFails(a, b);
    if |a| > 0 && |b| > 0 {
      var x, y := a[|a| - 1], b[|b| - 1];
      if x.stamp == y.stamp {
        LastLinked(c, a);
        LastLinked(c, b);
        SameEndSameChain(c, a[..|a| - 1], b[..|b| - 1]);
        assert a == a[..|a| - 1] + [x] && b == b[..|b| - 1] + [y];
        if HashesFail(a[..|a| - 1], b[..|b| - 1]) {
          FailureLifts(a, b);
        }
      }
    }
  }

  lemma {:induction false} LastLinked(c: Codec, es: seq<Entry>)
    requires Linked(c, es) && |es| > 0
    ensures Linked(c, es[..|es| - 1]) && es[|es| - 1].stamp.prevHash == EndHash(es[..|es| - 1])
  {
    hide ComputeHash;
  }

  lemma {:induction false} LastHashFails(a: seq<Entry>, b: seq<Entry>)
    requires EndHash(a) == EndHash(b)
    ensures |a| > 0 && |b| > 0 && a[|a| - 1].stamp != b[|b| - 1].stamp ==> HashesFail(a, b)
    ensures (|a| == 0) != (|b| == 0) ==> HashesFail(a, b)
  {
  }

  lemma {:induction false} FailureLifts(a: seq<Entry>, b: seq<Entry>)
    requires |a| > 0 && |b| > 0 && HashesFail(a[..|a| - 1], b[..|b| - 1])
    ensures HashesFail(a, b)
  {
    var p, q := a[..|a| - 1], b[..|b| - 1];
    if i, j :| 0 <= i < |p| && 0 <= j < |q| && p[i].hash == q[j].hash && p[i].stamp != q[j].stamp {
      assert a[i].hash == b[j].hash && a[i].stamp != b[j].stamp;
    } else if i :| 0 <= i < |p| && p[i].hash == "" {
      assert a[i].hash == "";
    } else {
      var i :| 0 <= i < |q| && q[i].hash == "";
      assert b[i].hash == "";
    }
  }

  /** The entry carries the hash of its own text. */
  ghost predicate OwnHash(c: Codec, e: Entry) {
    c.stampJson(e.stamp).Some? && e.hash == c.sha(c.stampJson(e.stamp).value)
  }

  /** Two entries that differ without their hashes and yet have texts of the same hash. */
  ghost predicate Collision(c: Codec, x: Entry, y: Entry) {
    && x.stamp != y.stamp && c.stampJson(x.stamp).Some? && c.stampJson(y.stamp).Some?
    && c.sha(c.stampJson(x.stamp).value) == c.sha(c.stampJson(y.stamp).value)
  }

  /** How one line is read: too long from a mebibyte on, blank lines are skipped, a carriage return at the end does not
      count, and the rest must decode to an entry that passes. */
  lemma {:induction false} LineRead(c: Codec, v: Verdict, raw: string)
    requires v.Accepted?
    ensures |raw| >= 1_048_576 ==> CheckLine(c, v, raw) == Rejected(v.count, LineTooLong)
    ensures |raw| < 1_048_576 && (raw == "" || raw == "\r") ==> CheckLine(c, v, raw) == v
    ensures 0 < |raw| < 1_048_576 && raw != "\r" ==>
              var line := if raw[|raw| - 1] == '\r' then raw[..|raw| - 1] else raw;
              CheckLine(c, v, raw) == match c.parse(line)
                                      case None => Rejected(v.count, BadJson)
                                      case Some(e) => CheckEntry(c, v, e)
  {
    hide CheckEntry;
  }

  /** After an open that fails there is no log to append to. */
  lemma {:induction false} FailedOpenLeavesNoLog(c: Codec, d: Disk, r: Record, taken: nat)
    requires Resume(c, d.file).None?
    ensures var after := Step(c, d, Open).0;
            && after.file == d.file && after.handle == None && Step(c, d, Open).1 == OpenFailed
            && Step(c, after, Append(r, taken)) == (after, Closed)
  {
  }

  /** An entry is accepted exactly when its number is the next, it names the hash before it, and its own hash is the
      hash of its own text: whatever else is changed in it, it is rejected unless the hash of the text stays. */
  lemma {:induction false} EntryAcceptedExactlyWhen(c: Codec, v: Verdict, e: Entry)
    requires v.Accepted?
    ensures CheckEntry(c, v, e).Accepted? <==>
              e.stamp.seqNo == v.prevSeq + 1 && e.stamp.prevHash == v.prevHash && OwnHash(c, e)
    ensures CheckEntry(c, v, e).Accepted? ==> CheckEntry(c, v, e) == Accepted(v.count + 1, e.hash, e.stamp.seqNo)
  {
  }

  /** What an append writes: the next number, the hash before it, and the hash of its own text. */
  lemma {:induction false} AppendedEntry(c: Codec, t: Tail, r: Record)
    ensures NextLine(c, t, r).Some? ==>
              var (e, line) := NextLine(c, t, r).value;
              && e.stamp == Stamp(t.seqNo + 1, r.ts, r.kind, r.payload, t.prevHash)
              && OwnHash(c, e) && c.entryJson(e) == Some(line)
    ensures NextLine(c, t, r).None? ==>
              var s := Stamp(t.seqNo + 1, r.ts, r.kind, r.payload, t.prevHash);
              c.stampJson(s).None? || c.entryJson(Entry(s, c.sha(c.stampJson(s).value))).None?
  {
  }

  /** A record is appended, and then its payload is edited in the file: Verify rejects the file unless the new text
      has the hash of the old one. */
  lemma {:induction false} EditedPayloadRejected(c: Codec, line: string, e: Entry, payload: map<string, string>)
    requires Chomped(line) != "" && c.parse(Chomped(line)) == Some(e.(stamp := e.stamp.(payload := payload)))
    requires OwnHash(c, e) && e.stamp.payload != payload
    requires CheckLines(c, [line]).Accepted?
    ensures Collision(c, e, e.(stamp := e.stamp.(payload := payload)))
  {
    assert [line][..0] == [];
  }

  /** Two accepted files with the same final hash hold the same entries, unless one entry's hash is empty or the
      texts of two of their entries collide: whoever rewrites, drops or adds anything in the past without changing
      the end of the chain has found a collision of the hash function. */
  lemma {:induction false} FinalHashFixesHistory(c: Codec, f: string, g: string)
    requires VerifyFile(c, f).Accepted? && VerifyFile(c, g).Accepted?
    requires VerifyFile(c, f).prevHash == VerifyFile(c, g).prevHash
    ensures var a, b := Parsed(c, Lines(f)), Parsed(c, Lines(g));
            || a == b || (exists i :: 0 <= i < |a| && a[i].hash == "") || (exists i :: 0 <= i < |b| && b[i].hash == "")
            || exists i, j :: 0 <= i < |a| && 0 <= j < |b| && Collision(c, a[i], b[j])
    ensures VerifyFile(c, f).count == |Parsed(c, Lines(f))| && VerifyFile(c, g).count == |Parsed(c, Lines(g))|
    ensures forall e | e in Parsed(c, Lines(f)) + Parsed(c, Lines(g)) :: OwnHash(c, e)
  {
    hide Lines, CheckLines, Parsed, HashesFail, Linked;
    var a, b := Parsed(c, Lines(f)), Parsed(c, Lines(g));
    AcceptedIsChained(c, Lines(f));
    AcceptedIsChained(c, Lines(g));
    SameEndSameChain(c, a, b);
    LinkedHashes(c, a);
    LinkedHashes(c, b);
    FailureCollides(c, a, b);
  }

  lemma {:induction false} FailureCollides(c: Codec, a: seq<Entry>, b: seq<Entry>)
    requires (forall e | e in a :: OwnHash(c, e)) && forall e | e in b :: OwnHash(c, e)
    ensures HashesFail(a, b) ==>
              || (exists i :: 0 <= i < |a| && a[i].hash == "") || (exists i :: 0 <= i < |b| && b[i].hash == "")
              || exists i, j :: 0 <= i < |a| && 0 <= j < |b| && Collision(c, a[i], b[j])
  {
    hide OwnHash, Collision;
    if i, j :| 0 <= i < |a| && 0 <= j < |b| && a[i].hash == b[j].hash && a[i].stamp != b[j].stamp {
      assert a[i] in a && b[j] in b;
      SameHashCollides(c, a[i], b[j]);
    }
  }

  lemma {:induction false} SameHashCollides(c: Codec, x: Entry, y: Entry)
    requires OwnHash(c, x) && OwnHash(c, y) && x.hash == y.hash && x.stamp != y.stamp
    ensures Collision(c, x, y)
  {
  }

  lemma {:induction false} LinkedHashes(c: Codec, es: seq<Entry>)
    requires Linked(c, es)
    ensures forall e | e in es :: OwnHash(c, e)
  {
    if |es| > 0 {
      LinkedHashes(c, es[..|es| - 1]);
      assert es == es[..|es| - 1] + [es[|es| - 1]];
    }
  }
}
