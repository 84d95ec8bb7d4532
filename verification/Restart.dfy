/** A round generated twice, as after a warm restart: the projection of a game
    (internal/racegen/adapter/round.go) and its persistence (cmd/race-generator/main.go:620-637). */
module Restart {
  import opened Arithmetic
  import opened Options
  import opened RoundStore

  type Text = s: string | s != "" witness "x"

  /** The JSON text of an object, so not of an empty list. */
  type ObjectText = s: string | s != "" && s != "[]" witness "x"

  /** A generated game; the JSON encodings of its parts are None when they fail. */
  datatype Game = Game(code: string, detail: Detail, odds: seq<real>, bonus: Pos, competitors: Option<ObjectText>,
                       videoName: Text, videoNameJson: Option<Text>, interval: Option<Text>, jackpot: Option<Text>,
                       finish: map<int, Finish>)

  predicate Encodes(json: seq<real> -> Option<string>, g: Game, winCount: nat)
    requires winCount <= |g.odds|
  {
    && json(g.odds).Some? && json(g.odds[..winCount]).Some?
    && g.competitors.Some? && g.videoNameJson.Some? && g.interval.Some? && g.jackpot.Some?
  }

  /** A named round, every part encodable, and a finisher in every position from 1 to n. */
  predicate Projectable(json: seq<real> -> Option<string>, g: Game, n: int, winCount: int) {
    && g.code != "" && n > 0 && 0 < winCount <= |g.odds| && Encodes(json, g, winCount)
    && forall pos | 1 <= pos <= n :: pos in g.finish
  }

  /** The columns of a game, with its times taken from its video. */
  function RoundOf(json: seq<real> -> Option<string>, g: Game, winCount: nat): (r: Round)
    requires winCount <= |g.odds| && Encodes(json, g, winCount)
    ensures r.code == g.code && r.status == "F" && Filled(r)
  {
    Round(g.code, "F", json(g.odds).value, json(g.odds[..winCount]).value, g.bonus, g.detail, g.detail.videoStartDt,
          Some(g.detail.videoEndDt), g.competitors.value, g.videoName, g.videoNameJson.value, g.interval.value,
          g.jackpot.value)
  }

  /** One result for each position, in order. */
  function ResultsOf(g: Game, n: int): (r: seq<Result>)
    requires n > 0 && forall pos | 1 <= pos <= n :: pos in g.finish
    ensures |r| == n
  {
    seq(n, k requires 0 <= k < n => Result(k + 1, g.finish[k + 1]))
  }

  method ToGameRound(json: seq<real> -> Option<string>, g: Game, n: int, winCount: int)
      returns (r: Option<(Round, seq<Result>)>)
    ensures r.Some? <==> Projectable(json, g, n, winCount)
    ensures r.Some? <==>
              && g.code != "" && n > 0 && 0 < winCount <= |g.odds|
              && json(g.odds).Some? && json(g.odds[..winCount]).Some?
              && g.competitors.Some? && g.videoNameJson.Some? && g.interval.Some? && g.jackpot.Some?
              && forall pos | 1 <= pos <= n :: pos in g.finish
    ensures r.Some? ==> r.value == (RoundOf(json, g, winCount), ResultsOf(g, n))
    ensures r.Some? ==>
              var (round, results) := r.value;
              && round.code == g.code && round.status == "F" && round.bonus == g.bonus && round.detail == g.detail
              && Some(round.odds) == json(g.odds) && Some(round.winOdds) == json(g.odds[..winCount])
              && round.createdAt == g.detail.videoStartDt && round.finishedAt == Some(g.detail.videoEndDt)
              && Some(round.competitors) == g.competitors && round.videoName == g.videoName
              && Some(round.videoNameJson) == g.videoNameJson
              && Some(round.interval) == g.interval && Some(round.jackpot) == g.jackpot
              && |results| == n && forall k | 1 <= k <= n :: results[k - 1] == Result(k, g.finish[k])
  {
    if g.code == "" || n <= 0 || winCount <= 0 || winCount > |g.odds| || !Encodes(json, g, winCount) {
      return None;
    }
    var results: seq<Result> := [];
    for pos := 1 to n + 1
      invariant |results| == pos - 1 && forall p | 1 <= p < pos :: p in g.finish
      invariant forall k | 0 <= k < pos - 1 :: results[k] == Result(k + 1, g.finish[k + 1])
    {
      if pos !in g.finish {
        return None;
      }
      results := results + [Result(pos, g.finish[pos])];
    }
    assert results == ResultsOf(g, n);
    r := Some((RoundOf(json, g, winCount), results));
  }

  // ---------- persisting a game ----------

  /** The upsert, and unless it fails the results; whether neither failed. */
  function Persisted(hash: string -> string, db: Db, r: Round, found: seq<Result>, now: string, s: Script, at: string,
                     fails: Option<nat>): (Db, bool)
  {
    var step := UpsertStep(hash, db, r, now, s);
    if step.ok then SaveStep(step.db, r.code, found, at, fails) else (step.db, false)
  }

  method Persist(store: Store, arena: array<Round>, gr: nat, found: seq<Result>, now: string, s: Script, at: string,
                 fails: Option<nat>)
      returns (ok: bool)
    requires gr < arena.Length
    modifies store, arena
    ensures (store.State(), ok) == Persisted(store.hash, old(store.State()), old(arena[gr]), found, now, s, at, fails)
  {
    hide InsertResults, Finished;
    var written;
    written, ok := store.UpsertGameRound(arena, gr, now, s);
    if ok {
      ok := store.SaveResult(arena[gr].code, found, at, fails);
    }
  }

  // ---------- the second game of a slot ----------

  /** Every column that a patch looks at has a value. */
  predicate Filled(r: Round) {
    && r.competitors != "" && r.competitors != "[]" && r.videoName != "" && r.videoNameJson != ""
    && r.interval != "" && r.jackpot != ""
  }

  /** The finished row of one game under another: with the video, interval, competitors and jackpot of the other,
      if the patch succeeds, and in any case finished anew. */
  function Refreshed(row: Row, b: Round, patch: bool, at: string): Row {
    (if patch then row.(competitors := b.competitors, videoName := b.videoName, videoNameJson := b.videoNameJson,
                        interval := b.interval, jackpot := b.jackpot)
     else row).(finishedAt := Some(at))
  }

  predicate SameVideo(row: Row, b: Round) {
    && row.competitors == b.competitors && row.videoName == b.videoName && row.videoNameJson == b.videoNameJson
    && row.interval == b.interval && row.jackpot == b.jackpot
  }

  /** A finished row with a bonus, and a result in each of the positions given. */
  ghost predicate Complete(db: Db, code: string, found: seq<Result>) {
    && code in db.rounds && db.rounds[code].status == Some("F")
    && db.rounds[code].bonus.Some? && db.rounds[code].bonus.value > 0
    && forall k | 0 <= k < |found| :: (code, found[k].position) in db.results
  }

  lemma {:induction false} NothingInserted(db: Db, code: string, found: seq<Result>)
    requires forall k | 0 <= k < |found| :: (code, found[k].position) in db.results
    ensures InsertResults(db, code, found) == db
  {
    if |found| > 0 {
      NothingInserted(db, code, found[..|found| - 1]);
    }
  }

  /** A second game for a slot that holds a finished game refreshes that row, and changes nothing else. */
  lemma {:induction false} SecondGameRefreshes(hash: string -> string, db: Db, b: Round, found: seq<Result>,
                                               now: string, s: Script, at: string)
    requires Complete(db, b.code, found) && Filled(b) && s.read
    ensures Persisted(hash, db, b, found, now, s, at, None) ==
            (db.(rounds := db.rounds[b.code := Refreshed(db.rounds[b.code], b, s.patch, at)]), true)
  {
    hide InsertResults;
    var row := db.rounds[b.code];
    var patched := FinishedRow(row, b, s);
    assert UpsertStep(hash, db, b, now, s).db == db.(rounds := db.rounds[b.code := patched]);
    var after := db.(rounds := db.rounds[b.code := Refreshed(row, b, s.patch, at)]);
    assert db.rounds[b.code := patched][b.code := Refreshed(row, b, s.patch, at)] == after.rounds;
    NothingInserted(after, b.code, found);
  }

  ghost predicate HasPosition(found: seq<Result>, position: int) {
    exists j :: 0 <= j < |found| && found[j].position == position
  }

  /** Results in all positions that other results have. */
  ghost predicate Covers(found: seq<Result>, others: seq<Result>) {
    forall k | 0 <= k < |others| :: HasPosition(found, others[k].position)
  }

  /** The row of a game persisted on an empty slot. */
  function FirstRow(a: Round, now: string, at: string): Row {
    RowOf(a.(createdAt := OrElse(a.createdAt, now))).(status := Some("F"), finishedAt := Some(at))
  }

  lemma {:induction false} FirstPersisted(hash: string -> string, db: Db, a: Round, found: seq<Result>, now: string,
                                          s: Script, at: string)
    requires a.code !in db.rounds && s.upsert
    ensures var first := Persisted(hash, db, a, found, now, s, at, None).0;
            && first.rounds == db.rounds[a.code := FirstRow(a, now, at)]
            && forall k | 0 <= k < |found| :: (a.code, found[k].position) in first.results
  {
    hide InsertResults;
    var step := UpsertStep(hash, db, a, now, s);
    var done := Finished(step.db, a.code, at);
    assert done.rounds == db.rounds[a.code := FirstRow(a, now, at)];
    InsertGrows(done, a.code, found);
    forall k | 0 <= k < |found| ensures (a.code, found[k].position) in InsertResults(done, a.code, found).results {
      Recorded(done, a.code, found, k);
    }
  }

  /** A game persisted on an empty slot, then any readable calls: the row stays finished with the game's odds and win
      odds, its bonus does not go down, and every result stays as first recorded. */
  lemma {:induction false} FirstGameStands(hash: string -> string, db: Db, a: Round, found: seq<Result>, now: string,
                                           s: Script, at: string, ops: seq<Op>, others: seq<Result>)
    requires a.code !in db.rounds && a.bonus > 0 && s.upsert && Covers(found, others)
    requires forall i | 0 <= i < |ops| :: Readable(ops[i])
    ensures var first := Persisted(hash, db, a, found, now, s, at, None).0;
            var later := DoAll(hash, first, ops);
            && Complete(later, a.code, others) && later.rounds[a.code].bonus.value >= a.bonus
            && later.rounds[a.code].odds == Some(a.odds) && later.rounds[a.code].winOdds == a.winOdds
            && forall key | key in first.results :: key in later.results && later.results[key] == first.results[key]
  {
    hide DoAll, Persisted, Readable, HasPosition;
    var first := Persisted(hash, db, a, found, now, s, at, None).0;
    FirstPersisted(hash, db, a, found, now, s, at);
    NothingGoesBack(hash, first, ops, 0);
    NoOps(hash, first, ops);
    forall k | 0 <= k < |others| ensures (a.code, others[k].position) in first.results {
      PositionRecorded(first, a.code, found, others[k].position);
    }
  }

  lemma {:induction false} PositionRecorded(db: Db, code: string, found: seq<Result>, position: int)
    requires HasPosition(found, position) && forall k | 0 <= k < |found| :: (code, found[k].position) in db.results
    ensures (code, position) in db.results
  {
  }

  lemma {:induction false} RefreshIsNoOp(db: Db, b: Round, patch: bool, at: string)
    requires b.code in db.rounds
    ensures var row := db.rounds[b.code];
            db.(rounds := db.rounds[b.code := Refreshed(row, b, patch, at)]) == db <==>
              row.finishedAt == Some(at) && (patch ==> SameVideo(row, b))
  {
    var row, after := db.rounds[b.code], Refreshed(db.rounds[b.code], b, patch, at);
    assert db.rounds[b.code := after][b.code] == after;
    if after == row {
      assert db.rounds[b.code := after] == db.rounds;
    }
  }

  /** The documented no-op of a warm restart. The slot keeps the first game's odds, win odds and results, and takes
      the second game's competitors, video, interval and jackpot; nothing changes exactly when these and the
      finish time agree, or the patch fails and the time agrees. */
  lemma {:induction false} WarmRestart(hash: string -> string, db: Db, a: Round, foundA: seq<Result>, nowA: string,
      sA: Script, atA: string, ops: seq<Op>, b: Round, foundB: seq<Result>, nowB: string, sB: Script, atB: string)
    requires a.code == b.code && a.code !in db.rounds && a.bonus > 0 && sA.upsert && Covers(foundA, foundB)
    requires (forall i | 0 <= i < |ops| :: Readable(ops[i])) && Filled(b) && sB.read
    ensures var first := Persisted(hash, db, a, foundA, nowA, sA, atA, None).0;
            var before := DoAll(hash, first, ops);
            var after := Persisted(hash, before, b, foundB, nowB, sB, atB, None).0;
            && Persisted(hash, before, b, foundB, nowB, sB, atB, None).1 && a.code in before.rounds
            && after == before.(rounds := before.rounds[a.code := Refreshed(before.rounds[a.code], b, sB.patch, atB)])
            && after.rounds[a.code].odds == Some(a.odds) && after.rounds[a.code].winOdds == a.winOdds
            && (forall key | key in first.results :: key in after.results && after.results[key] == first.results[key])
            && (after == before <==>
                  before.rounds[a.code].finishedAt == Some(atB) && (sB.patch ==> SameVideo(before.rounds[a.code], b)))
  {
    hide DoAll, Readable, Persisted, SameVideo, Covers, Filled;
    FirstGameStands(hash, db, a, foundA, nowA, sA, atA, ops, foundB);
    var before := DoAll(hash, Persisted(hash, db, a, foundA, nowA, sA, atA, None).0, ops);
    SecondGameRefreshes(hash, before, b, foundB, nowB, sB, atB);
    RefreshIsNoOp(before, b, sB.patch, atB);
  }

  /** Two games of a slot, one directly after the other: the second is a no-op exactly when it agrees with the first
      in the five patched columns and finishes at the same time. */
  lemma {:induction false} RestartIsNoOpExactlyWhen(hash: string -> string, json: seq<real> -> Option<string>, db: Db,
      g: Game, h: Game, n: int, winCount: int, nowG: string, atG: string, nowH: string, atH: string)
    requires Projectable(json, g, n, winCount) && Projectable(json, h, n, winCount)
    requires g.code == h.code && g.code !in db.rounds
    ensures var all := Script(true, true, true, true);
            var a, b := RoundOf(json, g, winCount), RoundOf(json, h, winCount);
            var first := Persisted(hash, db, a, ResultsOf(g, n), nowG, all, atG, None).0;
            var second := Persisted(hash, first, b, ResultsOf(h, n), nowH, all, atH, None).0;
            second == first <==>
              && g.competitors == h.competitors && g.videoName == h.videoName && g.videoNameJson == h.videoNameJson
              && g.interval == h.interval && g.jackpot == h.jackpot && atG == atH
  {
    hide Persisted, DoAll, Refreshed, Covers, ResultsOf;
    var all := Script(true, true, true, true);
    var a, b := RoundOf(json, g, winCount), RoundOf(json, h, winCount);
    SamePositions(g, h, n);
    FirstPersisted(hash, db, a, ResultsOf(g, n), nowG, all, atG);
    WarmRestart(hash, db, a, ResultsOf(g, n), nowG, all, atG, [], b, ResultsOf(h, n), nowH, all, atH);
    NoCalls(hash, Persisted(hash, db, a, ResultsOf(g, n), nowG, all, atG, None).0);
  }

  lemma {:induction false} NoCalls(hash: string -> string, db: Db)
    ensures DoAll(hash, db, []) == db
  {
  }

  lemma {:induction false} SamePositions(g: Game, h: Game, n: int)
    requires n > 0 && forall pos | 1 <= pos <= n :: pos in g.finish && pos in h.finish
    ensures Covers(ResultsOf(g, n), ResultsOf(h, n))
  {
    forall k | 0 <= k < n ensures HasPosition(ResultsOf(g, n), ResultsOf(h, n)[k].position) {
      assert ResultsOf(g, n)[k].position == k + 1;
    }
  }
}
