/** The round store of internal/sqlite/sqlite.go: tables are maps, statements that may fail take
    their outcome from a script, and the caller's structs, updated through pointers, live in an arena. */
module RoundStore {
  import opened Options

  /** Columns that only a full upsert writes. */
  datatype Detail = Detail(gameTypeId: int, gameType: string, raceNumber: string, raceDate: string,
                           competitorsCount: int, weather: string, temperature: int, humidity: int, wind: string,
                           courseConditions: string, videoStartDt: string, videoEndDt: string, roundInterval: int,
                           scheduledAt: string)

  /** A row of GameRounds; status, odds and bonus are read back as nullable. */
  datatype Row = Row(status: Option<string>, odds: Option<string>, winOdds: string, bonus: Option<int>,
                     detail: Detail, createdAt: string, finishedAt: Option<string>,
                     competitors: string, videoName: string, videoNameJson: string, interval: string, jackpot: string)

  /** The struct a caller passes in. */
  datatype Round = Round(code: string, status: string, odds: string, winOdds: string, bonus: int,
                         detail: Detail, createdAt: string, finishedAt: Option<string>,
                         competitors: string, videoName: string, videoNameJson: string, interval: string,
                         jackpot: string)

  datatype Finish = Finish(runner: int, time: Option<real>)

  datatype Result = Result(position: int, finish: Finish)

  /** GameRounds by round code, and GameResults by round code and position. */
  datatype Db = Db(rounds: map<string, Row>, results: map<(string, int), Finish>)

  /** Which statements of an upsert succeed: reading the existing row, patching a finished row, updating
      the bonus, and the full upsert. */
  datatype Script = Script(read: bool, patch: bool, bonus: bool, upsert: bool)

  function RowOf(r: Round): Row {
    Row(Some(r.status), Some(r.odds), r.winOdds, Some(r.bonus), r.detail, r.createdAt, r.finishedAt,
        r.competitors, r.videoName, r.videoNameJson, r.interval, r.jackpot)
  }

  function OrElse(incoming: string, existing: string): string {
    if incoming != "" then incoming else existing
  }

  /** The patch statement for finished rows. */
  function Patched(row: Row, r: Round): Row {
    row.(interval := OrElse(r.interval, row.interval),
         videoNameJson := OrElse(r.videoNameJson, row.videoNameJson),
         videoName := OrElse(r.videoName, row.videoName),
         jackpot := OrElse(r.jackpot, row.jackpot),
         competitors := if r.competitors != "" && r.competitors != "[]" then r.competitors else row.competitors)
  }

  predicate NoBonus(row: Row) {
    row.bonus.None? || row.bonus.value == 0
  }

  function FinishedRow(row: Row, r: Round, s: Script): Row {
    var patched := if (r.interval != "" || r.videoNameJson != "" || r.jackpot != "") && s.patch
                   then Patched(row, r) else row;
    if r.bonus > 0 && NoBonus(row) && s.bonus then patched.(bonus := Some(r.bonus)) else patched
  }

  /** The higher of the stored and the incoming bonus. */
  function KeptBonus(row: Row, r: Round): int {
    if row.bonus.Some? && row.bonus.value > r.bonus then row.bonus.value else r.bonus
  }

  /** The database and the caller's struct after an upsert; whether it wrote, and whether it failed. */
  datatype Step = Step(db: Db, round: Round, written: bool, ok: bool)

  function FullUpsert(db: Db, r: Round, now: string, s: Script): Step {
    var stamped := r.(createdAt := OrElse(r.createdAt, now));
    if s.upsert then Step(db.(rounds := db.rounds[r.code := RowOf(stamped)]), stamped, true, true)
    else Step(db, stamped, false, false)
  }

  function UpsertStep(hash: string -> string, db: Db, r: Round, now: string, s: Script): Step {
    if !s.read || r.code !in db.rounds then FullUpsert(db, r, now, s)
    else
      var row := db.rounds[r.code];
      if row.status == Some("F") then
        Step(db.(rounds := db.rounds[r.code := FinishedRow(row, r, s)]), r, false, true)
      else
        var kept := r.(bonus := KeptBonus(row, r));
        var raised := if kept.bonus > 0 && NoBonus(row) && s.bonus
                      then db.(rounds := db.rounds[r.code := row.(bonus := Some(kept.bonus))]) else db;
        if row.odds.Some? && hash(row.odds.value) == hash(r.odds) then Step(raised, kept, false, true)
        else FullUpsert(raised, kept, now, s)
  }

  // ---------- batches and results ----------

  /** One round of a batch: a pointer into the caller's structs, the clock and the statements. */
  datatype Item = Item(ptr: nat, now: string, script: Script)

  ghost predicate InArena(items: seq<Item>, size: nat) {
    forall i | 0 <= i < |items| :: items[i].ptr < size
  }

  datatype BatchState = BatchState(db: Db, arena: seq<Round>, written: nat, ok: bool)

  /** Single upserts from left to right until one fails. */
  function Fold(hash: string -> string, db: Db, arena: seq<Round>, items: seq<Item>): (r: BatchState)
    requires InArena(items, |arena|)
    ensures |r.arena| == |arena|
  {
    if |items| == 0 then BatchState(db, arena, 0, true) else
      var before, item := Fold(hash, db, arena, items[..|items| - 1]), items[|items| - 1];
      if !before.ok then before else
        var step := UpsertStep(hash, before.db, before.arena[item.ptr], item.now, item.script);
        BatchState(step.db, before.arena[item.ptr := step.round],
                   before.written + if step.written then 1 else 0, step.ok)
  }

  function Finished(db: Db, code: string, now: string): Db {
    if code in db.rounds
    then db.(rounds := db.rounds[code := db.rounds[code].(status := Some("F"), finishedAt := Some(now))])
    else db
  }

  /** Insert-or-ignore: the first result of a position stays. */
  function InsertResults(db: Db, code: string, results: seq<Result>): Db {
    if |results| == 0 then db else
      var before, r := InsertResults(db, code, results[..|results| - 1]), results[|results| - 1];
      if (code, r.position) in before.results then before
      else before.(results := before.results[(code, r.position) := r.finish])
  }

  /** A batch in one transaction: all of its upserts, or none. */
  function BatchStep(hash: string -> string, db: Db, arena: seq<Round>, items: seq<Item>, begins: bool, commits: bool)
    : (r: BatchState)
    requires InArena(items, |arena|)
  {
    var fold := Fold(hash, db, arena, items);
    if !begins then BatchState(db, arena, 0, false)
    else if fold.ok && commits then fold
    else BatchState(db, fold.arena, 0, false)
  }

  /** The round finished and its results inserted in one transaction, unless a statement fails; whether none did. */
  function SaveStep(db: Db, code: string, found: seq<Result>, now: string, fails: Option<nat>): (Db, bool) {
    if fails.None? || fails.value > |found| + 2
    then (InsertResults(Finished(db, code, now), code, found), true) else (db, false)
  }

  class Store {
    const hash: string -> string
    var rounds: map<string, Row>
    var results: map<(string, int), Finish>

    constructor (hash: string -> string)
      ensures this.hash == hash && State() == Db(map[], map[])
    {
      this.hash, rounds, results := hash, map[], map[];
    }

    ghost function State(): Db
      reads this
    {
      Db(rounds, results)
    }

    method UpsertGameRound(arena: array<Round>, gr: nat, now: string, s: Script) returns (written: bool, ok: bool)
      requires gr < arena.Length
      modifies this, arena
      ensures var step := UpsertStep(hash, old(State()), old(arena[gr]), now, s);
              && State() == step.db && written == step.written && ok == step.ok
              && arena[..] == old(arena[..])[gr := step.round]
    {
      hide RowOf, Patched;
      var code := arena[gr].code;
      if s.read && code in rounds {
        var row := rounds[code];
        if row.status == Some("F") {
          if (arena[gr].interval != "" || arena[gr].videoNameJson != "" || arena[gr].jackpot != "") && s.patch {
            rounds := rounds[code := Patched(rounds[code], arena[gr])];
          }
          if arena[gr].bonus > 0 && NoBonus(row) && s.bonus {
            rounds := rounds[code := rounds[code].(bonus := Some(arena[gr].bonus))];
          }
          return false, true;
        }
        if row.bonus.Some? && row.bonus.value > arena[gr].bonus {
          arena[gr] := arena[gr].(bonus := row.bonus.value);
        }
        if arena[gr].bonus > 0 && NoBonus(row) && s.bonus {
          rounds := rounds[code := rounds[code].(bonus := Some(arena[gr].bonus))];
        }
        if row.odds.Some? && hash(row.odds.value) == hash(arena[gr].odds) {
          return false, true;
        }
      }
      if arena[gr].createdAt == "" {
        arena[gr] := arena[gr].(createdAt := now);
      }
      if !s.upsert {
        return false, false;
      }
      rounds := rounds[code := RowOf(arena[gr])];
      return true, true;
    }

    /** All or nothing in the tables; the caller's structs keep what was written to them. */
    method UpsertGameRoundBatch(arena: array<Round>, items: seq<Item>, begins: bool, commits: bool)
        returns (written: nat, ok: bool)
      requires InArena(items, arena.Length)
      modifies this, arena
      ensures BatchState(State(), arena[..], written, ok) ==
              BatchStep(hash, old(State()), old(arena[..]), items, begins, commits)
    {
      hide UpsertStep;
      if !begins {
        return 0, false;
      }
      ghost var db, was := State(), arena[..];
      var snapshotRounds, snapshotResults := rounds, results;
      written := 0;
      for k := 0 to |items|
        invariant var f := Fold(hash, db, was, items[..k]);
                  f.ok && f.db == State() && f.arena == arena[..] && f.written == written
      {
        assert items[..k + 1][..k] == items[..k];
        var wrote, done := UpsertGameRound(arena, items[k].ptr, items[k].now, items[k].script);
        if !done {
          FailedStays(hash, db, was, items, k + 1);
          rounds, results := snapshotRounds, snapshotResults;
          return 0, false;
        }
        if wrote {
          written := written + 1;
        }
      }
      assert items[..|items|] == items;
      if !commits {
        rounds, results := snapshotRounds, snapshotResults;
        return 0, false;
      }
      ok := true;
    }

    /** `fails` is the number of the statement that fails, if one does: 0 begins the transaction, 1
        finishes the round, k + 2 inserts the k-th result, and the one after the last commits. */
    method SaveResult(code: string, found: seq<Result>, now: string, fails: Option<nat>) returns (ok: bool)
      modifies this
      ensures (State(), ok) == SaveStep(old(State()), code, found, now, fails)
    {
      if fails == Some(0) {
        return false;
      }
      ghost var done := Finished(State(), code, now);
      var snapshotRounds, snapshotResults := rounds, results;
      if fails == Some(1) {
        return false;
      }
      if code in rounds {
        rounds := rounds[code := rounds[code].(status := Some("F"), finishedAt := Some(now))];
      }
      for k := 0 to |found|
        invariant State() == InsertResults(done, code, found[..k])
        invariant fails.Some? ==> fails.value >= k + 2
      {
        assert found[..k + 1][..k] == found[..k];
        if fails == Some(k + 2) {
          rounds, results := snapshotRounds, snapshotResults;
          return false;
        }
        if (code, found[k].position) !in results {
          results := results[(code, found[k].position) := found[k].finish];
        }
      }
      assert found[..|found|] == found;
      if fails == Some(|found| + 2) {
        rounds, results := snapshotRounds, snapshotResults;
        return false;
      }
      ok := true;
    }
  }

  lemma {:induction false} FailedStays(hash: string -> string, db: Db, arena: seq<Round>, items: seq<Item>, k: nat)
    requires InArena(items, |arena|) && k <= |items| && !Fold(hash, db, arena, items[..k]).ok
    ensures Fold(hash, db, arena, items) == Fold(hash, db, arena, items[..k])
    decreases |items|
  {
    hide UpsertStep;
    if k < |items| {
      assert items[..|items| - 1][..k] == items[..k];
      FailedStays(hash, db, arena, items[..|items| - 1], k);
    } else {
      assert items[..k] == items;
    }
  }

  // ---------- what never goes back ----------

  /** A finished row keeps its status, odds, win odds and all columns of a full upsert; no bonus goes
      down, and no row disappears. */
  ghost predicate RowGrows(a: Row, b: Row) {
    && (a.bonus.Some? ==> b.bonus.Some? && b.bonus.value >= a.bonus.value)
    && (a.status == Some("F") ==>
          b.status == a.status && b.odds == a.odds && b.winOdds == a.winOdds && b.detail == a.detail &&
          b.createdAt == a.createdAt)
  }

  /** Every result, once recorded, stays as it is. */
  ghost predicate Grows(a: Db, b: Db) {
    && (forall code | code in a.rounds :: code in b.rounds && RowGrows(a.rounds[code], b.rounds[code]))
    && (forall key | key in a.results :: key in b.results && b.results[key] == a.results[key])
  }

  lemma {:induction false} GrowsTransitive(a: Db, b: Db, c: Db)
    requires Grows(a, b) && Grows(b, c)
    ensures Grows(a, c)
  {
  }

  lemma {:induction false} UpsertGrows(hash: string -> string, db: Db, r: Round, now: string, s: Script)
    requires s.read
    ensures Grows(db, UpsertStep(hash, db, r, now, s).db)
  {
    hide Grows, RowGrows, Patched;
    RowsGrowToThemselves(db);
    if r.code in db.rounds {
      var row := db.rounds[r.code];
      var step := UpsertStep(hash, db, r, now, s);
      UpsertedRowGrows(hash, db, r, now, s);
      RowReplaced(db, r.code, step.db.rounds[r.code]);
      assert step.db.rounds == db.rounds[r.code := step.db.rounds[r.code]];
    } else {
      NewRow(db, r.code, RowOf(r.(createdAt := OrElse(r.createdAt, now))));
    }
  }

  lemma {:induction false} UpsertedRowGrows(hash: string -> string, db: Db, r: Round, now: string, s: Script)
    requires s.read && r.code in db.rounds
    ensures var after := UpsertStep(hash, db, r, now, s).db;
            && r.code in after.rounds && RowGrows(db.rounds[r.code], after.rounds[r.code])
            && after.rounds == db.rounds[r.code := after.rounds[r.code]] && after.results == db.results
  {
    var row := db.rounds[r.code];
    if row.status == Some("F") {
      FinishedRowGrows(row, r, s);
    }
  }

  lemma {:induction false} FinishedRowGrows(row: Row, r: Round, s: Script)
    ensures RowGrows(row, FinishedRow(row, r, s))
  {
  }

  lemma {:induction false} RowReplaced(db: Db, code: string, row: Row)
    requires code in db.rounds && RowGrows(db.rounds[code], row)
    ensures Grows(db, db.(rounds := db.rounds[code := row]))
  {
    hide RowGrows;
    RowsGrowToThemselves(db);
  }

  lemma {:induction false} NewRow(db: Db, code: string, row: Row)
    requires code !in db.rounds
    ensures Grows(db, db.(rounds := db.rounds[code := row]))
  {
    hide RowGrows;
    RowsGrowToThemselves(db);
  }

  /** The whole of what Grows protects survives an upsert exactly when the row can be read, or the full
      upsert that an unread row leads to fails, or there is no row, or the incoming round happens to carry
      no lower bonus and, for a finished row, the same status, odds and upsert columns. */
  lemma {:induction false} UpsertGrowsExactlyWhen(hash: string -> string, db: Db, r: Round, now: string, s: Script)
    ensures Grows(db, UpsertStep(hash, db, r, now, s).db) <==>
              s.read || !s.upsert || r.code !in db.rounds ||
              (var a := db.rounds[r.code];
               && (a.bonus.Some? ==> r.bonus >= a.bonus.value)
               && (a.status == Some("F") ==>
                     && r.status == "F" && Some(r.odds) == a.odds && r.winOdds == a.winOdds && r.detail == a.detail
                     && (if r.createdAt != "" then r.createdAt else now) == a.createdAt))
  {
    if s.read {
      UpsertGrows(hash, db, r, now, s);
    } else if r.code in db.rounds && s.upsert {
      assert UpsertStep(hash, db, r, now, s).db.rounds[r.code] == RowOf(r.(createdAt := OrElse(r.createdAt, now)));
    }
  }

  /** A finished row with odds and a bonus that cannot be read is replaced, its status apart. */
  lemma {:induction false} UnreadRowReplaced(hash: string -> string, d: Detail, now: string)
    ensures var row := Row(Some("F"), Some("[1]"), "", Some(5), d, now, None, "", "", "", "", "");
            var r := Round("GA1", "F", "[2]", "", 0, d, "", None, "", "", "", "", "");
            var after := UpsertStep(hash, Db(map["GA1" := row], map[]), r, now, Script(false, true, true, true)).db;
            && after.rounds["GA1"].status == Some("F")
            && after.rounds["GA1"].odds == Some("[2]") && after.rounds["GA1"].bonus == Some(0)
            && !Grows(Db(map["GA1" := row], map[]), after)
  {
    var row := Row(Some("F"), Some("[1]"), "", Some(5), d, now, None, "", "", "", "", "");
    var db := Db(map["GA1" := row], map[]);
    var r := Round("GA1", "F", "[2]", "", 0, d, "", None, "", "", "", "", "");
    assert "GA1" in db.rounds;
    UpsertGrowsExactlyWhen(hash, db, r, now, Script(false, true, true, true));
  }

  predicate PatchComesWith(r: Round, s: Script) {
    s.patch && (r.interval != "" || r.videoNameJson != "" || r.jackpot != "")
  }

  /** Exactly which columns of a finished row an upsert changes, and when: the video and interval columns
      and the competitors, each when its incoming value is not empty (nor, for the competitors, "[]") and
      differs, provided the interval, the video names or the jackpot came with it; and the bonus from none
      to a positive one. */
  lemma {:induction false} FinishedRowChanges(hash: string -> string, db: Db, r: Round, now: string, s: Script)
    requires s.read && r.code in db.rounds && db.rounds[r.code].status == Some("F")
    ensures var a, b := db.rounds[r.code], UpsertStep(hash, db, r, now, s).db.rounds[r.code];
            && b == a.(bonus := b.bonus, interval := b.interval, videoName := b.videoName,
                       videoNameJson := b.videoNameJson, jackpot := b.jackpot, competitors := b.competitors)
            && (b.interval != a.interval <==> PatchComesWith(r, s) && r.interval !in {"", a.interval})
            && (b.videoNameJson != a.videoNameJson <==>
                  PatchComesWith(r, s) && r.videoNameJson !in {"", a.videoNameJson})
            && (b.jackpot != a.jackpot <==> PatchComesWith(r, s) && r.jackpot !in {"", a.jackpot})
            && (b.videoName != a.videoName <==> PatchComesWith(r, s) && r.videoName !in {"", a.videoName})
            && (b.competitors != a.competitors <==>
                  PatchComesWith(r, s) && r.competitors !in {"", "[]", a.competitors})
            && b.interval in {a.interval, r.interval} && b.videoNameJson in {a.videoNameJson, r.videoNameJson}
            && b.jackpot in {a.jackpot, r.jackpot} && b.videoName in {a.videoName, r.videoName}
            && b.competitors in {a.competitors, r.competitors}
            && (b.bonus != a.bonus <==> r.bonus > 0 && s.bonus && (a.bonus == None || a.bonus == Some(0)))
            && (b.bonus != a.bonus ==> b.bonus == Some(r.bonus))
    ensures !UpsertStep(hash, db, r, now, s).written && UpsertStep(hash, db, r, now, s).round == r
  {
  }

  /** Two different values, neither of them missing. */
  predicate Clash(incoming: string, stored: string) {
    incoming != "" && stored != "" && incoming != stored
  }

  predicate CompetitorsClash(incoming: string, stored: string) {
    incoming !in {"", "[]"} && stored !in {"", "[]"} && incoming != stored
  }

  /** The documented promise that a finished row is patched only where something is missing: every filled
      column keeps its value. */
  predicate FilledKept(a: Row, b: Row) {
    && (a.interval != "" ==> b.interval == a.interval)
    && (a.videoNameJson != "" ==> b.videoNameJson == a.videoNameJson)
    && (a.videoName != "" ==> b.videoName == a.videoName)
    && (a.jackpot != "" ==> b.jackpot == a.jackpot)
    && (a.competitors !in {"", "[]"} ==> b.competitors == a.competitors)
  }

  /** The promise holds exactly when no patch is made or no incoming value clashes with a filled column. */
  lemma {:induction false} FilledKeptExactlyWhen(hash: string -> string, db: Db, r: Round, now: string, s: Script)
    requires s.read && r.code in db.rounds && db.rounds[r.code].status == Some("F")
    ensures var a := db.rounds[r.code];
            FilledKept(a, UpsertStep(hash, db, r, now, s).db.rounds[r.code]) <==>
              || !s.patch || r.interval == r.videoNameJson == r.jackpot == ""
              || !(Clash(r.interval, a.interval) || Clash(r.videoNameJson, a.videoNameJson) ||
                   Clash(r.videoName, a.videoName) || Clash(r.jackpot, a.jackpot) ||
                   CompetitorsClash(r.competitors, a.competitors))
  {
  }

  /** A finished row whose interval and competitors are filled loses both to a re-upsert. */
  lemma {:induction false} FilledColumnsOverwritten(hash: string -> string, d: Detail, now: string)
    ensures var row := Row(Some("F"), Some("[1]"), "", None, d, now, None, "[7]", "", "", "old", "");
            var r := Round("GA1", "F", "[1]", "", 0, d, "", None, "[8]", "", "", "new", "");
            var after := UpsertStep(hash, Db(map["GA1" := row], map[]), r, now, Script(true, true, true, true)).db;
            && after.rounds["GA1"].interval == "new" && after.rounds["GA1"].competitors == "[8]"
            && !FilledKept(row, after.rounds["GA1"])
  {
    var row := Row(Some("F"), Some("[1]"), "", None, d, now, None, "[7]", "", "", "old", "");
    assert "GA1" in map["GA1" := row];
    assert "old" != "new" && "[7]" != "[8]" && "[8]" != "[]" && "[7]" != "[]" by {
      assert "[7]"[1] != "[8]"[1] && "old"[0] != "new"[0];
    }
  }

  /** When an upsert writes, and what: the row is new or cannot be read, or it is open with other odds,
      and the statement succeeds; then the row is the caller's struct as the call leaves it, with a
      creation time and a bonus that is the higher of the stored and the incoming one. */
  lemma {:induction false} WritesExactlyWhen(hash: string -> string, db: Db, r: Round, now: string, s: Script)
    requires s.read
    ensures var step := UpsertStep(hash, db, r, now, s);
            && (step.written <==>
                  s.upsert && (r.code in db.rounds ==>
                                 var row := db.rounds[r.code];
                                 row.status != Some("F") && (row.odds == None || hash(row.odds.value) != hash(r.odds))))
            && (step.written ==>
                  && step.db == db.(rounds := db.rounds[r.code := RowOf(step.round)])
                  && (var row := step.db.rounds[r.code];
                      && row.status == Some(r.status) && row.odds == Some(r.odds) && row.winOdds == r.winOdds
                      && row.bonus == Some(step.round.bonus) && row.detail == r.detail
                      && row.createdAt == step.round.createdAt && row.finishedAt == r.finishedAt
                      && row.competitors == r.competitors && row.videoName == r.videoName
                      && row.videoNameJson == r.videoNameJson && row.interval == r.interval && row.jackpot == r.jackpot)
                  && step.round == r.(bonus := step.round.bonus, createdAt := step.round.createdAt)
                  && step.round.createdAt == (if r.createdAt != "" then r.createdAt else now)
                  && step.round.bonus >= r.bonus
                  && (r.code in db.rounds && db.rounds[r.code].bonus.Some? ==>
                        step.round.bonus >= db.rounds[r.code].bonus.value)
                  && (step.round.bonus == r.bonus ||
                      (r.code in db.rounds && db.rounds[r.code].bonus == Some(step.round.bonus))))
            && (!step.written ==>
                  && step.db.results == db.results && step.db.rounds.Keys == db.rounds.Keys
                  && forall code | code in db.rounds && code != r.code :: step.db.rounds[code] == db.rounds[code])
  {
  }

  lemma {:induction false} FinishGrows(db: Db, code: string, now: string)
    ensures Grows(db, Finished(db, code, now))
  {
  }

  lemma {:induction false} InsertGrows(db: Db, code: string, results: seq<Result>)
    ensures Grows(db, InsertResults(db, code, results))
    ensures InsertResults(db, code, results).rounds == db.rounds
  {
    hide RowGrows;
    if |results| == 0 {
      RowsGrowToThemselves(db);
    } else {
      InsertGrows(db, code, results[..|results| - 1]);
    }
  }

  lemma {:induction false} RowsGrowToThemselves(db: Db)
    ensures Grows(db, db)
  {
  }

  /** After saving, each given position holds what was there before, or else its first given result. */
  lemma {:induction false} FirstResultWins(db: Db, code: string, results: seq<Result>, k: nat)
    requires k < |results| && forall j | 0 <= j < k :: results[j].position != results[k].position
    ensures var key := (code, results[k].position);
            key in InsertResults(db, code, results).results &&
            InsertResults(db, code, results).results[key] ==
              if key in db.results then db.results[key] else results[k].finish
  {
    var m := |results| - 1;
    if k < m {
      FirstResultWins(db, code, results[..m], k);
    } else {
      Untouched(db, code, results[..m], results[k].position);
    }
  }

  lemma {:induction false} Untouched(db: Db, code: string, results: seq<Result>, position: int)
    requires forall j | 0 <= j < |results| :: results[j].position != position
    ensures var key := (code, position);
            && (key in InsertResults(db, code, results).results <==> key in db.results)
            && (key in db.results ==> InsertResults(db, code, results).results[key] == db.results[key])
  {
    if |results| > 0 {
      Untouched(db, code, results[..|results| - 1], position);
    }
  }

  // ---------- runs ----------

  datatype Op =
    | Upsert(round: Round, now: string, script: Script)
    | Batch(arena: seq<Round>, items: seq<Item>, begins: bool, commits: bool)
    | Save(code: string, found: seq<Result>, at: string, fails: Option<nat>)

  /** Pointers are to existing structs, and every existing row can be read. */
  ghost predicate Readable(op: Op) {
    match op
    case Upsert(_, _, script) => script.read
    case Batch(arena, items, _, _) =>
      InArena(items, |arena|) && forall i | 0 <= i < |items| :: items[i].script.read
    case Save(_, _, _, _) => true
  }

  ghost function Do(hash: string -> string, db: Db, op: Op): Db
    requires Readable(op)
  {
    match op
    case Upsert(round, now, script) => UpsertStep(hash, db, round, now, script).db
    case Batch(arena, items, begins, commits) =>
      BatchStep(hash, db, arena, items, begins, commits).db
    case Save(code, found, at, fails) => SaveStep(db, code, found, at, fails).0
  }

  ghost function DoAll(hash: string -> string, db: Db, ops: seq<Op>): Db
    requires forall i | 0 <= i < |ops| :: Readable(ops[i])
  {
    if |ops| == 0 then db else Do(hash, DoAll(hash, db, ops[..|ops| - 1]), ops[|ops| - 1])
  }

  lemma {:induction false} FoldGrows(hash: string -> string, db: Db, arena: seq<Round>, items: seq<Item>)
    requires InArena(items, |arena|) && forall i | 0 <= i < |items| :: items[i].script.read
    ensures Grows(db, Fold(hash, db, arena, items).db)
  {
    hide UpsertStep, Grows;
    if |items| == 0 {
      RowsGrowToThemselves(db);
    } else {
      var before, item := Fold(hash, db, arena, items[..|items| - 1]), items[|items| - 1];
      FoldGrows(hash, db, arena, items[..|items| - 1]);
      if before.ok {
        var r := before.arena[item.ptr];
        UpsertGrows(hash, before.db, r, item.now, item.script);
        GrowsTransitive(db, before.db, UpsertStep(hash, before.db, r, item.now, item.script).db);
      }
    }
  }

  lemma {:induction false} DoGrows(hash: string -> string, db: Db, op: Op)
    requires Readable(op)
    ensures Grows(db, Do(hash, db, op))
  {
    hide UpsertStep, Grows, InsertResults, Finished, Fold;
    RowsGrowToThemselves(db);
    match op
    case Upsert(round, now, script) => UpsertGrows(hash, db, round, now, script);
    case Batch(arena, items, _, _) => FoldGrows(hash, db, arena, items);
    case Save(code, found, at, _) =>
      FinishGrows(db, code, at);
      InsertGrows(Finished(db, code, at), code, found);
      GrowsTransitive(db, Finished(db, code, at), InsertResults(Finished(db, code, at), code, found));
  }

  /** Over any sequence of upserts, batches and saved results, failing or not, with readable rows:
      nothing that Grows protects ever goes back. */
  lemma {:induction false} NothingGoesBack(hash: string -> string, db: Db, ops: seq<Op>, k: nat)
    requires k <= |ops| && forall i | 0 <= i < |ops| :: Readable(ops[i])
    ensures Grows(DoAll(hash, db, ops[..k]), DoAll(hash, db, ops))
    decreases |ops|
  {
    hide Do, Grows;
    if k == |ops| {
      assert ops[..k] == ops;
      RowsGrowToThemselves(DoAll(hash, db, ops));
    } else {
      var m := |ops| - 1;
      NothingGoesBack(hash, db, ops[..m], k);
      assert ops[..m][..k] == ops[..k];
      DoGrows(hash, DoAll(hash, db, ops[..m]), ops[m]);
      GrowsTransitive(DoAll(hash, db, ops[..k]), DoAll(hash, db, ops[..m]), DoAll(hash, db, ops));
    }
  }

  /** The single upserts that a batch amounts to, given the structs as each finds them. */
  ghost function Singles(hash: string -> string, db: Db, arena: seq<Round>, items: seq<Item>): seq<Op>
    requires InArena(items, |arena|)
  {
    if |items| == 0 then [] else
      var before, item := Fold(hash, db, arena, items[..|items| - 1]), items[|items| - 1];
      Singles(hash, db, arena, items[..|items| - 1]) + [Upsert(before.arena[item.ptr], item.now, item.script)]
  }

  /** How many of the upserts write. */
  ghost function CountWritten(hash: string -> string, db: Db, ops: seq<Op>): nat
    requires forall i | 0 <= i < |ops| :: Readable(ops[i])
  {
    if |ops| == 0 then 0 else
      var before, op := DoAll(hash, db, ops[..|ops| - 1]), ops[|ops| - 1];
      CountWritten(hash, db, ops[..|ops| - 1]) +
      if op.Upsert? && UpsertStep(hash, before, op.round, op.now, op.script).written then 1 else 0
  }

  /** A committed batch leaves the tables as its single upserts would, one after the other, and reports
      how many of them would have returned true. */
  lemma {:induction false} BatchIsSingles(hash: string -> string, db: Db, arena: seq<Round>, items: seq<Item>)
    requires Readable(Batch(arena, items, true, true)) && Fold(hash, db, arena, items).ok
    ensures var ops := Singles(hash, db, arena, items);
            && (forall i | 0 <= i < |ops| :: Readable(ops[i]))
            && DoAll(hash, db, ops) == Do(hash, db, Batch(arena, items, true, true))
            && CountWritten(hash, db, ops) == Fold(hash, db, arena, items).written
  {
    hide UpsertStep, Fold, DoAll, CountWritten;
    if |items| == 0 {
      NothingDone(hash, db, arena);
    } else {
      var m := |items| - 1;
      FoldStep(hash, db, arena, items);
      BatchIsSingles(hash, db, arena, items[..m]);
      var before := Fold(hash, db, arena, items[..m]);
      var op := Upsert(before.arena[items[m].ptr], items[m].now, items[m].script);
      DoAllAppend(hash, db, Singles(hash, db, arena, items[..m]), op);
    }
  }

  lemma {:induction false} NothingDone(hash: string -> string, db: Db, arena: seq<Round>)
    ensures Fold(hash, db, arena, []) == BatchState(db, arena, 0, true)
    ensures DoAll(hash, db, []) == db && CountWritten(hash, db, []) == 0
  {
  }

  lemma {:induction false} FoldStep(hash: string -> string, db: Db, arena: seq<Round>, items: seq<Item>)
    requires |items| > 0 && InArena(items, |arena|) && Fold(hash, db, arena, items).ok
    ensures var before, item := Fold(hash, db, arena, items[..|items| - 1]), items[|items| - 1];
            var step := UpsertStep(hash, before.db, before.arena[item.ptr], item.now, item.script);
            && before.ok && Fold(hash, db, arena, items).db == step.db
            && Fold(hash, db, arena, items).written == before.written + if step.written then 1 else 0
  {
    hide UpsertStep;
  }

  lemma {:induction false} DoAllAppend(hash: string -> string, db: Db, ops: seq<Op>, op: Op)
    requires (forall i | 0 <= i < |ops| :: Readable(ops[i])) && Readable(op) && op.Upsert?
    ensures forall i | 0 <= i < |ops + [op]| :: Readable((ops + [op])[i])
    ensures var step := UpsertStep(hash, DoAll(hash, db, ops), op.round, op.now, op.script);
            && DoAll(hash, db, ops + [op]) == step.db
            && CountWritten(hash, db, ops + [op]) == CountWritten(hash, db, ops) + if step.written then 1 else 0
  {
    hide UpsertStep;
    assert (ops + [op])[..|ops|] == ops;
  }

  /** Once a round's result is saved it is finished, with its odds, for good. */
  lemma {:induction false} SavedStaysFinished(hash: string -> string, db: Db, code: string, found: seq<Result>,
                                              at: string, ops: seq<Op>)
    requires code in db.rounds && forall i | 0 <= i < |ops| :: Readable(ops[i])
    ensures var saved := Do(hash, db, Save(code, found, at, None));
            var end := DoAll(hash, saved, ops);
            && saved.rounds == db.rounds[code := db.rounds[code].(status := Some("F"), finishedAt := Some(at))]
            && code in end.rounds && end.rounds[code].status == Some("F")
            && end.rounds[code].odds == db.rounds[code].odds && end.rounds[code].winOdds == db.rounds[code].winOdds
            && forall k | 0 <= k < |found| :: (code, found[k].position) in end.results
  {
    hide DoAll, InsertResults;
    var saved := Do(hash, db, Save(code, found, at, None));
    InsertGrows(Finished(db, code, at), code, found);
    NothingGoesBack(hash, saved, ops, 0);
    NoOps(hash, saved, ops);
    forall k | 0 <= k < |found| ensures (code, found[k].position) in saved.results {
      Recorded(Finished(db, code, at), code, found, k);
    }
  }

  lemma {:induction false} NoOps(hash: string -> string, db: Db, ops: seq<Op>)
    ensures DoAll(hash, db, ops[..0]) == db
  {
  }

  lemma {:induction false} Recorded(db: Db, code: string, found: seq<Result>, k: nat)
    requires k < |found|
    ensures (code, found[k].position) in InsertResults(db, code, found).results
  {
    if k < |found| - 1 {
      Recorded(db, code, found[..|found| - 1], k);
    }
  }

  // ---------- column by column ----------

  /** An open row with the same odds: nothing is written but a first positive bonus, the higher of the stored and the
      incoming one, if that statement succeeds; the caller's struct takes over a higher stored bonus. */
  lemma {:induction false} OpenRowWithSameOdds(hash: string -> string, db: Db, r: Round, now: string, s: Script)
    requires s.read && r.code in db.rounds && db.rounds[r.code].status != Some("F")
    requires db.rounds[r.code].odds.Some? && hash(db.rounds[r.code].odds.value) == hash(r.odds)
    ensures var (row, step) := (db.rounds[r.code], UpsertStep(hash, db, r, now, s));
            && !step.written && step.ok && step.db.results == db.results
            && step.round == (if row.bonus.Some? && row.bonus.value > r.bonus then r.(bonus := row.bonus.value) else r)
            && step.db.rounds == (if s.bonus && r.bonus > 0 && (row.bonus == None || row.bonus == Some(0))
                                  then db.rounds[r.code := row.(bonus := Some(r.bonus))] else db.rounds)
  {
  }

  /** A failed statement of a transaction leaves the tables as they were; a batch that does not commit reports none. */
  lemma {:induction false} FailuresChangeNothing(hash: string -> string, db: Db, arena: seq<Round>, items: seq<Item>,
      begins: bool, commits: bool, code: string, found: seq<Result>, now: string, fails: Option<nat>)
    requires InArena(items, |arena|)
    ensures var b := BatchStep(hash, db, arena, items, begins, commits);
            && (b.ok <==> begins && commits && Fold(hash, db, arena, items).ok)
            && (!b.ok ==> b.db == db && b.written == 0) && (b.ok ==> b == Fold(hash, db, arena, items))
    ensures (SaveStep(db, code, found, now, fails).1 <==> fails == None || fails.value > |found| + 2)
    ensures !SaveStep(db, code, found, now, fails).1 ==> SaveStep(db, code, found, now, fails).0 == db
  {
  }

  /** An open row with other odds: the full upsert, with the higher bonus; if it fails, only a first positive bonus is
      stored, and the struct keeps what the call wrote into it. */
  lemma {:induction false} OpenRowWithOtherOdds(hash: string -> string, db: Db, r: Round, now: string, s: Script)
    requires s.read && r.code in db.rounds && db.rounds[r.code].status != Some("F")
    requires db.rounds[r.code].odds.None? || hash(db.rounds[r.code].odds.value) != hash(r.odds)
    ensures var (row, step) := (db.rounds[r.code], UpsertStep(hash, db, r, now, s));
            && step.ok == step.written == s.upsert && step.db.results == db.results
            && step.round == r.(createdAt := if r.createdAt == "" then now else r.createdAt,
                                bonus := if row.bonus.Some? && row.bonus.value > r.bonus then row.bonus.value
                                         else r.bonus)
            && step.db.rounds ==
                 (if s.upsert then db.rounds[r.code := RowOf(step.round)]
                  else if s.bonus && r.bonus > 0 && (row.bonus == None || row.bonus == Some(0))
                  then db.rounds[r.code := row.(bonus := Some(r.bonus))] else db.rounds)
  {
    hide RowOf;
  }

  /** No row, or one that cannot be read: the full upsert of the struct as it comes, with a creation time. */
  lemma {:induction false} NewOrUnreadRow(hash: string -> string, db: Db, r: Round, now: string, s: Script)
    requires !s.read || r.code !in db.rounds
    ensures var step := UpsertStep(hash, db, r, now, s);
            && step.ok == step.written == s.upsert && step.db.results == db.results
            && step.round == r.(createdAt := if r.createdAt == "" then now else r.createdAt)
            && step.db.rounds == if s.upsert then db.rounds[r.code := RowOf(step.round)] else db.rounds
  {
    hide RowOf;
  }

  /** Only the given positions of the given round receive results. */
  lemma {:induction false} OnlyGivenPositions(db: Db, code: string, found: seq<Result>, key: (string, int))
    requires key in InsertResults(db, code, found).results && key !in db.results
    ensures key.0 == code && exists k :: 0 <= k < |found| && found[k].position == key.1
  {
    var m := |found| - 1;
    if |found| > 0 && key in InsertResults(db, code, found[..m]).results {
      OnlyGivenPositions(db, code, found[..m], key);
      var k :| 0 <= k < m && found[..m][k].position == key.1;
      assert found[k].position == key.1;
    }
  }
}
