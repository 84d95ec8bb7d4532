/** Transition detection of internal/feed/poller.go: on every tick each game type's current round
    is read, its public state gated by time, and a change of (round, state) broadcast. */
module Poller {
  import opened Arithmetic
  import opened Options
  import opened RaceGrid

  datatype Gate = Open | Final

  /** What the store answers for a round code: an error, no round, a round that cannot be
      projected, or one whose video ends at the given instant. */
  datatype Reading = ReadFailed | Absent | Unusable | Found(videoEnd: int)

  datatype Emitted = Emitted(round: string, phase: Gate)

  datatype Event = Event(id: nat, gameType: string, round: string, phase: Gate, at: int)

  datatype GameConfig = GameConfig(prefix: string, sch: Schedule)

  /** A configured game type: the prefix of its round codes, and a schedule that fills the day with race
      numbers of at most four digits, as all in the table do. */
  type Game = g: GameConfig | Fills(g.sch) && RacesPerDay(g.sch) < 10000 witness GameConfig("", Schedule(0, 0, 0, 240))

  /** The single fairness boundary: the result is public from the end of the video on. */
  function PhaseOf(videoEnd: int, now: int): Gate {
    if now < videoEnd then Open else Final
  }

  lemma {:induction false} NumberFits(sch: DaySchedule, now: int, offset: int)
    requires RacesPerDay(sch) < 10000
    ensures 0 <= RaceNumber(sch, now, offset) < 10000
  {
    NumberOnGrid(sch, now, offset);
  }

  /** The code under which a game's round at `now` is stored. */
  function GaCode(g: Game, date: int -> string, now: int, offset: int): string {
    NumberFits(g.sch, now, offset);
    "GA" + RoundCode(g.prefix, date, g.sch, now, offset)
  }

  /** What one look at one game's current round broadcasts, given the last broadcast. */
  function Change(last: Option<Emitted>, code: string, reading: Reading, now: int): Option<Emitted> {
    if last == Some(Emitted(code, Final)) || !reading.Found? then None
    else
      var cur := Emitted(code, PhaseOf(reading.videoEnd, now));
      if last == Some(cur) then None else Some(cur)
  }

  // ---------- the poller ----------

  function LastOf(lastByGame: map<string, Emitted>, gt: string): Option<Emitted> {
    if gt in lastByGame then Some(lastByGame[gt]) else None
  }

  datatype PollState = PollState(lastByGame: map<string, Emitted>, eventSeq: nat, events: seq<Event>)

  /** One look at game type gt. */
  function Look(games: map<string, Game>, date: int -> string, offset: int, st: PollState, gt: string,
                reading: Reading, now: int): PollState
  {
    if gt !in games then st else
      var code := GaCode(games[gt], date, now, offset);
      match Change(LastOf(st.lastByGame, gt), code, reading, now)
      case None => st
      case Some(cur) =>
        PollState(st.lastByGame[gt := cur], st.eventSeq + 1,
                  st.events + [Event(st.eventSeq + 1, gt, cur.round, cur.phase, now)])
  }

  /** The first n looks of a tick, in the order of the configured game types. */
  function Looks(games: map<string, Game>, date: int -> string, offset: int, st: PollState, gts: seq<string>,
                 readings: seq<Reading>, now: int, n: nat): PollState
    requires n <= |gts| == |readings|
  {
    if n == 0 then st
    else Look(games, date, offset, Looks(games, date, offset, st, gts, readings, now, n - 1), gts[n - 1],
              readings[n - 1], now)
  }

  class Poller {
    const games: map<string, Game>
    const gameTypes: seq<string>
    var lastByGame: map<string, Emitted>
    var eventSeq: nat
    /** Everything broadcast so far. */
    ghost var events: seq<Event>

    constructor (games: map<string, Game>, gameTypes: seq<string>)
      ensures this.games == games && this.gameTypes == gameTypes
      ensures State() == PollState(map[], 0, [])
    {
      this.games, this.gameTypes := games, gameTypes;
      lastByGame, eventSeq, events := map[], 0, [];
    }

    ghost function State(): PollState
      reads this
    {
      PollState(lastByGame, eventSeq, events)
    }

    /** readings[i] is what the store answers when the i-th game type is looked at; the events are
        returned in broadcast order. */
    method Tick(date: int -> string, offset: int, now: int, readings: seq<Reading>) returns (sent: seq<Event>)
      requires |readings| == |gameTypes|
      modifies this
      ensures State() == Looks(games, date, offset, old(State()), gameTypes, readings, now, |gameTypes|)
      ensures events == old(events) + sent
    {
      hide GaCode, Change;
      ghost var st := State();
      sent := [];
      for i := 0 to |gameTypes|
        invariant State() == Looks(games, date, offset, st, gameTypes, readings, now, i)
        invariant events == st.events + sent
      {
        var gt := gameTypes[i];
        if gt !in games {
          continue;
        }
        var code := GaCode(games[gt], date, now, offset);
        var change := Change(LastOf(lastByGame, gt), code, readings[i], now);
        if change.Some? {
          lastByGame := lastByGame[gt := change.value];
          eventSeq := eventSeq + 1;
          var ev := Event(eventSeq, gt, change.value.round, change.value.phase, now);
          sent := sent + [ev];
          events := events + [ev];
        }
      }
    }
  }

  // ---------- runs ----------

  /** One look at a game type, with the store's answer. */
  datatype LookAt = LookAt(gt: string, reading: Reading, now: int)

  function Run(games: map<string, Game>, date: int -> string, offset: int, looks: seq<LookAt>): PollState {
    if |looks| == 0 then PollState(map[], 0, []) else
      var l := looks[|looks| - 1];
      Look(games, date, offset, Run(games, date, offset, looks[..|looks| - 1]), l.gt, l.reading, l.now)
  }

  /** The looks of one tick. */
  function TickLooks(gts: seq<string>, readings: seq<Reading>, now: int): (r: seq<LookAt>)
    requires |gts| == |readings|
  {
    seq(|gts|, i requires 0 <= i < |gts| => LookAt(gts[i], readings[i], now))
  }

  /** A tick continues a run by its looks, so the runs below are exactly the poller's. */
  lemma {:induction false} TickContinuesRun(games: map<string, Game>, date: int -> string, offset: int,
      looks: seq<LookAt>, gts: seq<string>, readings: seq<Reading>, now: int, n: nat)
    requires n <= |gts| == |readings|
    ensures Looks(games, date, offset, Run(games, date, offset, looks), gts, readings, now, n) ==
            Run(games, date, offset, looks + TickLooks(gts, readings, now)[..n])
  {
    hide GaCode, Change, Look;
    var ls := TickLooks(gts, readings, now);
    if n == 0 {
      assert looks + ls[..0] == looks;
    } else {
      TickContinuesRun(games, date, offset, looks, gts, readings, now, n - 1);
      assert (looks + ls[..n])[..|looks| + n - 1] == looks + ls[..n - 1];
    }
  }

  ghost predicate Nondecreasing(looks: seq<LookAt>) {
    forall i, j | 0 <= i < j < |looks| :: looks[i].now <= looks[j].now
  }

  function EventsOf(events: seq<Event>, gt: string): (r: seq<Event>)
    ensures forall i | 0 <= i < |r| :: r[i].gameType == gt
  {
    if |events| == 0 then [] else
      EventsOf(events[..|events| - 1], gt) +
      if events[|events| - 1].gameType == gt then [events[|events| - 1]] else []
  }

  lemma {:induction false} EventsOfAppend(events: seq<Event>, e: Event, gt: string)
    ensures EventsOf(events + [e], gt) == EventsOf(events, gt) + if e.gameType == gt then [e] else []
  {
    assert (events + [e])[..|events|] == events;
  }

  function IndexAt(g: Game, t: int, offset: int): int {
    GridIndex(g.sch, t, offset)
  }

  /** Rounds in order, and within a round Open before Final. */
  ghost predicate Precedes(g: Game, offset: int, a: Event, b: Event) {
    || IndexAt(g, a.at, offset) < IndexAt(g, b.at, offset)
    || (IndexAt(g, a.at, offset) == IndexAt(g, b.at, offset) && a.phase == Open && b.phase == Final)
  }

  /** The broadcasts of one game type so far, up to `now`, and the last one remembered. */
  ghost predicate GameOk(g: Game, date: int -> string, offset: int, evs: seq<Event>, last: Option<Emitted>, now: int) {
    && (forall i | 0 <= i < |evs| :: evs[i].at <= now && evs[i].round == GaCode(g, date, evs[i].at, offset))
    && (forall i, j | 0 <= i < j < |evs| :: Precedes(g, offset, evs[i], evs[j]))
    && last == (if |evs| == 0 then None else Some(Emitted(evs[|evs| - 1].round, evs[|evs| - 1].phase)))
  }

  lemma {:induction false} GridIndexMonotone(g: Game, a: int, b: int, offset: int)
    requires a <= b
    ensures IndexAt(g, a, offset) <= IndexAt(g, b, offset)
  {
    var i, p := Interval(g.sch), Phase(g.sch, offset);
    QuotientMonotone(a - p, b - p, i);
  }

  lemma {:induction false} SameCode(g: Game, date: int -> string, offset: int, t: int, u: int)
    requires Calendar(date)
    ensures GaCode(g, date, t, offset) == GaCode(g, date, u, offset) <==> IndexAt(g, t, offset) == IndexAt(g, u, offset)
  {
    CodeIdentifiesInterval(g.prefix, date, g.sch, t, u, offset);
    var a, b := RoundCode(g.prefix, date, g.sch, t, offset), RoundCode(g.prefix, date, g.sch, u, offset);
    assert ("GA" + a)[2..] == a && ("GA" + b)[2..] == b;
  }

  /** One change keeps the order, whatever the store answered. */
  lemma {:induction false} ChangeKeepsOrder(g: Game, gt: string, date: int -> string, offset: int, evs: seq<Event>,
      last: Option<Emitted>, before: int, now: int, reading: Reading, id: nat)
    requires Calendar(date) && before <= now
    requires GameOk(g, date, offset, evs, last, before)
    ensures match Change(last, GaCode(g, date, now, offset), reading, now)
            case None => GameOk(g, date, offset, evs, last, now)
            case Some(cur) => GameOk(g, date, offset, evs + [Event(id, gt, cur.round, cur.phase, now)], Some(cur), now)
  {
    hide GaCode, IndexAt;
    if |evs| > 0 {
      SameCode(g, date, offset, evs[|evs| - 1].at, now);
    }
    forall i | 0 <= i < |evs| ensures IndexAt(g, evs[i].at, offset) <= IndexAt(g, now, offset) {
      GridIndexMonotone(g, evs[i].at, now, offset);
    }
  }

  ghost predicate RunOk(games: map<string, Game>, date: int -> string, offset: int, st: PollState, gt: string, now: int)
    requires gt in games
  {
    GameOk(games[gt], date, offset, EventsOf(st.events, gt), LastOf(st.lastByGame, gt), now)
  }

  lemma {:induction false} LookKeeps(games: map<string, Game>, date: int -> string, offset: int, st: PollState,
      l: LookAt, gt: string, before: int)
    requires gt in games && Calendar(date) && before <= l.now
    requires RunOk(games, date, offset, st, gt, before)
    ensures RunOk(games, date, offset, Look(games, date, offset, st, l.gt, l.reading, l.now), gt, l.now)
  {
    hide GaCode, IndexAt, Precedes, Change, EventsOf;
    var after := Look(games, date, offset, st, l.gt, l.reading, l.now);
    if l.gt == gt {
      ChangeKeepsOrder(games[gt], gt, date, offset, EventsOf(st.events, gt), LastOf(st.lastByGame, gt), before, l.now,
                       l.reading, st.eventSeq + 1);
    }
    if |after.events| > |st.events| {
      EventsOfAppend(st.events, after.events[|st.events|], gt);
    }
  }

  lemma {:induction false} RunKeeps(games: map<string, Game>, date: int -> string, offset: int, looks: seq<LookAt>,
      gt: string, now: int)
    requires gt in games && Calendar(date) && Nondecreasing(looks)
    requires forall i | 0 <= i < |looks| :: looks[i].now <= now
    ensures RunOk(games, date, offset, Run(games, date, offset, looks), gt, now)
    decreases |looks|
  {
    hide GaCode, Look, Precedes;
    if |looks| > 0 {
      var m := |looks| - 1;
      RunKeeps(games, date, offset, looks[..m], gt, looks[m].now);
      LookKeeps(games, date, offset, Run(games, date, offset, looks[..m]), looks[m], gt, looks[m].now);
    }
  }

  /** With a clock that does not run back, no (round, state) pair is ever broadcast twice for a game
      type, whatever the store answers and whatever happens to other game types; rounds come in
      order and Open before Final. */
  lemma {:induction false} NoPairTwice(games: map<string, Game>, date: int -> string, offset: int, looks: seq<LookAt>,
      gt: string, i: nat, j: nat)
    requires gt in games && Calendar(date) && Nondecreasing(looks)
    requires var evs := EventsOf(Run(games, date, offset, looks).events, gt); i < j < |evs|
    ensures var evs := EventsOf(Run(games, date, offset, looks).events, gt);
            && Precedes(games[gt], offset, evs[i], evs[j])
            && (evs[i].round, evs[i].phase) != (evs[j].round, evs[j].phase)
  {
    hide GaCode, Run, IndexAt;
    var now := if |looks| == 0 then 0 else looks[|looks| - 1].now;
    RunKeeps(games, date, offset, looks, gt, now);
    var evs := EventsOf(Run(games, date, offset, looks).events, gt);
    SameCode(games[gt], date, offset, evs[i].at, evs[j].at);
  }

  lemma {:induction false} EventIdsCountUp(games: map<string, Game>, date: int -> string, offset: int,
      looks: seq<LookAt>, i: nat)
    requires i < |Run(games, date, offset, looks).events|
    ensures |Run(games, date, offset, looks).events| == Run(games, date, offset, looks).eventSeq
    ensures Run(games, date, offset, looks).events[i].id == i + 1
    decreases |looks|
  {
    hide GaCode, Change;
    if |looks| > 0 {
      var before := Run(games, date, offset, looks[..|looks| - 1]);
      EventCount(games, date, offset, looks[..|looks| - 1]);
      if i < |before.events| {
        EventIdsCountUp(games, date, offset, looks[..|looks| - 1], i);
      }
    }
  }

  lemma {:induction false} EventCount(games: map<string, Game>, date: int -> string, offset: int, looks: seq<LookAt>)
    ensures |Run(games, date, offset, looks).events| == Run(games, date, offset, looks).eventSeq
    decreases |looks|
  {
    hide GaCode, Change;
    if |looks| > 0 {
      EventCount(games, date, offset, looks[..|looks| - 1]);
    }
  }

  // ---------- exactly once ----------

  /** The states broadcast for one round, in order. */
  function PhasesIn(evs: seq<Event>, code: string): seq<Gate> {
    if |evs| == 0 then [] else
      var e := evs[|evs| - 1];
      PhasesIn(evs[..|evs| - 1], code) + if e.round == code then [e.phase] else []
  }

  lemma {:induction false} PhasesInAppend(evs: seq<Event>, e: Event, code: string)
    ensures PhasesIn(evs + [e], code) == PhasesIn(evs, code) + if e.round == code then [e.phase] else []
  {
    assert (evs + [e])[..|evs|] == evs;
  }

  lemma {:induction false} NoPhases(evs: seq<Event>, code: string)
    requires forall i | 0 <= i < |evs| :: evs[i].round != code
    ensures PhasesIn(evs, code) == []
  {
    if |evs| > 0 {
      NoPhases(evs[..|evs| - 1], code);
    }
  }

  /** The instants at which a game type was looked at. */
  function Times(looks: seq<LookAt>, gt: string): seq<int> {
    if |looks| == 0 then [] else
      var l := looks[|looks| - 1];
      Times(looks[..|looks| - 1], gt) + if l.gt == gt then [l.now] else []
  }

  ghost predicate AnyIn(times: seq<int>, lo: int, hi: int) {
    exists k :: 0 <= k < |times| && lo <= times[k] < hi
  }

  lemma {:induction false} AnyInAppend(times: seq<int>, t: int, lo: int, hi: int)
    ensures AnyIn(times + [t], lo, hi) <==> AnyIn(times, lo, hi) || lo <= t < hi
  {
    if AnyIn(times, lo, hi) {
      var k :| 0 <= k < |times| && lo <= times[k] < hi;
      assert (times + [t])[k] == times[k];
    }
    if lo <= t < hi {
      assert (times + [t])[|times|] == t;
    }
  }

  lemma {:induction false} TimesBound(looks: seq<LookAt>, gt: string, now: int, k: nat)
    requires forall i | 0 <= i < |looks| :: looks[i].now <= now
    requires k < |Times(looks, gt)|
    ensures Times(looks, gt)[k] <= now
  {
    var m := |looks| - 1;
    if k < |Times(looks[..m], gt)| {
      TimesBound(looks[..m], gt, now, k);
    }
  }

  /** Whenever the game is looked at during round r, its round is stored and its video ends at `end`. */
  ghost predicate Stored(g: Game, offset: int, looks: seq<LookAt>, gt: string, r: int, end: int) {
    forall i | 0 <= i < |looks| && looks[i].gt == gt && IndexAt(g, looks[i].now, offset) == r ::
      looks[i].reading == Found(end)
  }

  function Min(a: int, b: int): int { if a < b then a else b }

  function Max(a: int, b: int): int { if a < b then b else a }

  /** Open if the game was looked at during the round before the video's end, then Final if it was
      looked at during the round after it. */
  ghost function Expected(times: seq<int>, slot: int, next: int, end: int): seq<Gate> {
    (if AnyIn(times, slot, Min(end, next)) then [Open] else []) +
    (if AnyIn(times, Max(slot, end), next) then [Final] else [])
  }

  lemma {:induction false} IndexWindow(g: Game, offset: int, r: int, t: int)
    ensures IndexAt(g, t, offset) == r <==> GridSlot(g.sch, r, offset) <= t < GridSlot(g.sch, r + 1, offset)
  {
    var i, x := Interval(g.sch), t - RaceGrid.Phase(g.sch, offset);
    MulAdd(r, 1, i);
    assert x == x / i * i + x % i;
    if r * i <= x < r * i + i {
      DivModUnique(x, r, i, x - r * i);
    }
  }

  lemma {:induction false} SlotIndex(g: Game, offset: int, r: int)
    ensures IndexAt(g, GridSlot(g.sch, r, offset), offset) == r
  {
    GridSlotIndex(g.sch, r, offset);
  }

  /** During round r, what was broadcast for it is what is remembered. */
  lemma {:induction false} RememberedPhase(g: Game, date: int -> string, offset: int, evs: seq<Event>,
      last: Option<Emitted>, now: int, code: string)
    requires Calendar(date)
    requires GameOk(g, date, offset, evs, last, now) && code == GaCode(g, date, now, offset)
    ensures var ps := PhasesIn(evs, code);
            if |ps| == 0 then last.None? || last.value.round != code else last == Some(Emitted(code, ps[|ps| - 1]))
  {
    hide GaCode, IndexAt;
    if |evs| > 0 && evs[|evs| - 1].round != code {
      var e := evs[|evs| - 1];
      SameCode(g, date, offset, e.at, now);
      GridIndexMonotone(g, e.at, now, offset);
      forall i | 0 <= i < |evs| ensures evs[i].round != code {
        SameCode(g, date, offset, evs[i].at, now);
        assert i == |evs| - 1 || Precedes(g, offset, evs[i], e);
      }
      NoPhases(evs, code);
    }
  }

  /** One look at the game, given what the looks before it broadcast for round r. */
  lemma {:induction false} ChangeAsExpected(g: Game, gt: string, date: int -> string, offset: int, evs: seq<Event>,
      last: Option<Emitted>, times: seq<int>, now: int, reading: Reading, id: nat, r: int, end: int, code: string)
    requires Calendar(date)
    requires GameOk(g, date, offset, evs, last, now)
    requires forall k | 0 <= k < |times| :: times[k] <= now
    requires code == GaCode(g, date, GridSlot(g.sch, r, offset), offset)
    requires IndexAt(g, now, offset) == r ==> reading == Found(end)
    requires var slot, next := GridSlot(g.sch, r, offset), GridSlot(g.sch, r + 1, offset);
             PhasesIn(evs, code) == Expected(times, slot, next, end)
    ensures var slot, next := GridSlot(g.sch, r, offset), GridSlot(g.sch, r + 1, offset);
            match Change(last, GaCode(g, date, now, offset), reading, now)
            case None => PhasesIn(evs, code) == Expected(times + [now], slot, next, end)
            case Some(cur) => PhasesIn(evs + [Event(id, gt, cur.round, cur.phase, now)], code)
                              == Expected(times + [now], slot, next, end)
  {
    hide GaCode, IndexAt, GameOk, AnyIn, PhasesIn, GridSlot;
    var slot, next := GridSlot(g.sch, r, offset), GridSlot(g.sch, r + 1, offset);
    SlotIndex(g, offset, r);
    SameCode(g, date, offset, now, slot);
    IndexWindow(g, offset, r, now);
    AnyInAppend(times, now, slot, Min(end, next));
    AnyInAppend(times, now, Max(slot, end), next);
    var change := Change(last, GaCode(g, date, now, offset), reading, now);
    if change.Some? {
      PhasesInAppend(evs, Event(id, gt, change.value.round, change.value.phase, now), code);
    }
    if slot <= now < next {
      RememberedPhase(g, date, offset, evs, last, now, code);
      if now < end {
        NoneAhead(times, now, Max(slot, end), next);
      }
    }
  }

  lemma {:induction false} NoneAhead(times: seq<int>, now: int, lo: int, hi: int)
    requires now < lo && forall k | 0 <= k < |times| :: times[k] <= now
    ensures !AnyIn(times, lo, hi)
  {
  }

  /** Over any run: what is broadcast for a round is Open exactly when the game was looked at before
      the end of its video, followed by Final exactly when it was looked at after it. */
  lemma {:induction false} BroadcastAsExpected(games: map<string, Game>, date: int -> string, offset: int,
      looks: seq<LookAt>, gt: string, r: int, end: int)
    requires gt in games && Calendar(date) && Nondecreasing(looks)
    requires Stored(games[gt], offset, looks, gt, r, end)
    ensures var g := games[gt];
            var slot, next := GridSlot(g.sch, r, offset), GridSlot(g.sch, r + 1, offset);
            PhasesIn(EventsOf(Run(games, date, offset, looks).events, gt), GaCode(g, date, slot, offset))
            == Expected(Times(looks, gt), slot, next, end)
    decreases |looks|
  {
    hide GaCode, IndexAt, Expected, GridSlot, Precedes, GameOk, PhasesIn, EventsOf, Change;
    var g := games[gt];
    var slot, next := GridSlot(g.sch, r, offset), GridSlot(g.sch, r + 1, offset);
    var code := GaCode(g, date, slot, offset);
    if |looks| == 0 {
      NothingExpected(slot, next, end, gt, code);
    } else {
      var m := |looks| - 1;
      var l, before := looks[m], Run(games, date, offset, looks[..m]);
      var evs := EventsOf(before.events, gt);
      BroadcastAsExpected(games, date, offset, looks[..m], gt, r, end);
      RunKeeps(games, date, offset, looks[..m], gt, l.now);
      var after := Look(games, date, offset, before, l.gt, l.reading, l.now);
      if |after.events| > |before.events| {
        EventsOfAppend(before.events, after.events[|before.events|], gt);
      }
      if l.gt == gt {
        forall k | 0 <= k < |Times(looks[..m], gt)| ensures Times(looks[..m], gt)[k] <= l.now {
          TimesBound(looks[..m], gt, l.now, k);
        }
        ChangeAsExpected(g, gt, date, offset, evs, LastOf(before.lastByGame, gt), Times(looks[..m], gt), l.now,
                         l.reading, before.eventSeq + 1, r, end, code);
      } else {
        assert Times(looks, gt) == Times(looks[..m], gt);
        assert EventsOf(after.events, gt) == evs;
      }
    }
  }

  lemma {:induction false} NothingExpected(slot: int, next: int, end: int, gt: string, code: string)
    ensures Expected([], slot, next, end) == [] && PhasesIn(EventsOf([], gt), code) == []
  {
  }

  /** Consecutive looks at most w apart, beginning before hi and reaching lo, hit any window of width w. */
  lemma {:induction false} WindowHit(times: seq<int>, lo: int, w: int)
    requires |times| > 0 && times[0] < lo + w && times[|times| - 1] >= lo
    requires forall k | 1 <= k < |times| :: times[k] - times[k - 1] <= w
    ensures AnyIn(times, lo, lo + w)
  {
    var m := |times| - 1;
    if times[m] >= lo + w {
      assert times[m] - times[m - 1] <= w;
      WindowHit(times[..m], lo, w);
      var k :| 0 <= k < m && lo <= times[..m][k] < lo + w;
      assert times[k] == times[..m][k];
    }
  }

  /** When the game is polled before the end of its video and after it, never pausing for more than
      the video's length or the rest of the interval, the round is broadcast exactly once as Open and
      then exactly once as Final. */
  lemma {:induction false} EachRoundOpensThenFinishes(games: map<string, Game>, date: int -> string, offset: int,
      looks: seq<LookAt>, gt: string, r: int, video: int)
    requires gt in games && Calendar(date) && Nondecreasing(looks)
    requires 0 < video < Interval(games[gt].sch)
    requires var slot := GridSlot(games[gt].sch, r, offset);
             var times := Times(looks, gt);
             && Stored(games[gt], offset, looks, gt, r, slot + video)
             && |times| > 0 && times[0] < slot + video <= times[|times| - 1]
             && forall k | 1 <= k < |times| :: times[k] - times[k - 1] <= Min(video, Interval(games[gt].sch) - video)
    ensures var g := games[gt];
            PhasesIn(EventsOf(Run(games, date, offset, looks).events, gt),
                     GaCode(g, date, GridSlot(g.sch, r, offset), offset)) == [Open, Final]
  {
    hide GaCode, IndexAt, PhasesIn, EventsOf, Times, AnyIn, Run, Stored;
    var g := games[gt];
    var i := Interval(g.sch);
    var slot, next := GridSlot(g.sch, r, offset), GridSlot(g.sch, r + 1, offset);
    MulAdd(r, 1, i);
    BroadcastAsExpected(games, date, offset, looks, gt, r, slot + video);
    WindowHit(Times(looks, gt), slot, video);
    WindowHit(Times(looks, gt), slot + video, i - video);
  }

  /** No round is ever broadcast as Final before the end of its video, nor as Open after it. */
  lemma {:induction false} FinalOnlyAfterVideoEnd(games: map<string, Game>, date: int -> string, offset: int,
      looks: seq<LookAt>, i: nat)
    requires i < |Run(games, date, offset, looks).events|
    ensures var e := Run(games, date, offset, looks).events[i];
            exists k | 0 <= k < |looks| :: looks[k].gt == e.gameType && looks[k].now == e.at && looks[k].reading.Found?
              && (e.phase == Final <==> looks[k].reading.videoEnd <= e.at)
    decreases |looks|
  {
    hide GaCode;
    var m := |looks| - 1;
    var before := Run(games, date, offset, looks[..m]);
    var e := Run(games, date, offset, looks).events[i];
    if i < |before.events| {
      FinalOnlyAfterVideoEnd(games, date, offset, looks[..m], i);
      var k :| 0 <= k < m && looks[..m][k].gt == e.gameType && looks[..m][k].now == e.at &&
               looks[..m][k].reading.Found? && (e.phase == Final <==> looks[..m][k].reading.videoEnd <= e.at);
      assert looks[k] == looks[..m][k];
    } else {
      assert looks[m].gt == e.gameType && looks[m].now == e.at;
    }
  }

  // ---------- which round is looked up ----------

  /** The code looked up: GA, the game's prefix, the date one day after the day the cycle began on, and the place of
      the race within the cycle in four digits. */
  lemma {:induction false} GaCodeReads(g: Game, date: int -> string, now: int, offset: int)
    requires Calendar(date)
    ensures var (code, prefix) := (GaCode(g, date, now, offset), "GA" + g.prefix);
            var since := now - RaceGrid.Phase(g.sch, offset);
            && |code| == |prefix| + 12 && prefix <= code
            && DateIn(prefix, code) == date(since / DAY + 1)
            && AllDigits(code[|prefix| + 8..]) && Decimal(code[|prefix| + 8..]) == since % DAY / Interval(g.sch) + 1
  {
    hide RaceGrid.Phase, RaceNumber, DateIn, Decimal;
    NumberFits(g.sch, now, offset);
    NumbersFit(g.sch);
    CodeReads("GA" + g.prefix, date, g.sch, now, offset);
    PrefixJoined("GA", g.prefix, date, g.sch, now, offset);
  }

  lemma {:induction false} NumbersFit(sch: DaySchedule)
    requires RacesPerDay(sch) < 10000
    ensures FourDigitNumbers(sch)
  {
    var i, q := Interval(sch), RacesPerDay(sch);
    assert DAY == q * i;
    MulAdd(q - 1, 1, i);
    DivModUnique(DAY - 1, q - 1, i, i - 1);
  }

  lemma {:induction false} PrefixJoined(a: string, prefix: string, date: int -> string, sch: Schedule, now: int,
                                        offset: int)
    requires 0 <= RaceNumber(sch, now, offset) < 10000
    ensures a + RoundCode(prefix, date, sch, now, offset) == RoundCode(a + prefix, date, sch, now, offset)
  {
    hide RaceNumber, ScheduleStart;
    var d, n := date(ScheduleStart(sch, now, offset) / DAY + 1), Pad4(RaceNumber(sch, now, offset));
    assert a + (prefix + d + n) == a + prefix + d + n;
  }

  /** Every broadcast names a configured game and the round that is running then. */
  lemma {:induction false} BroadcastNamesRunningRound(games: map<string, Game>, date: int -> string, offset: int,
      looks: seq<LookAt>, i: nat)
    requires i < |Run(games, date, offset, looks).events|
    ensures var e := Run(games, date, offset, looks).events[i];
            e.gameType in games && e.round == GaCode(games[e.gameType], date, e.at, offset)
    decreases |looks|
  {
    hide GaCode;
    var m := |looks| - 1;
    var before := Run(games, date, offset, looks[..m]);
    if i < |before.events| {
      BroadcastNamesRunningRound(games, date, offset, looks[..m], i);
    }
  }
}
