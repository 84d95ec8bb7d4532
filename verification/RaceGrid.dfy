/** Race numbers, slots and round codes (internal/raceutil/raceutil.go) under a fixed offset
    between Malta time and UTC. Times are integer nanoseconds since the Unix epoch. */
module RaceGrid {
  import opened Arithmetic
  import opened Options

  const SECOND: int := 1_000_000_000
  const DAY: int := 86400 * SECOND

  /** A schedule: its first start of the Malta day and the interval between races, in seconds. */
  datatype Schedule = Schedule(h: nat, m: nat, s: nat, intervalSec: Pos)

  /** The table of schedules; other game types have none. */
  function ScheduleOf(gameType: string): Option<Schedule> {
    if gameType == "dog6" || gameType == "dog63" then Some(Schedule(0, 0, 0, 240))
    else if gameType == "dog8" then Some(Schedule(0, 3, 30, 240))
    else if gameType == "horse" then Some(Schedule(0, 0, 0, 320))
    else if gameType == "horse_classic" then Some(Schedule(0, 1, 0, 240))
    else None
  }

  function Interval(sch: Schedule): int {
    sch.intervalSec * SECOND
  }

  /** Midnight of the day of t, in a zone `offset` ahead of UTC, as a UTC instant. */
  function Midnight(t: int, offset: int): int {
    (t + offset) / DAY * DAY - offset
  }

  /** The UTC time of day of the schedule start: today's Malta start, read back as a UTC clock. */
  function StartOfDay(sch: Schedule, now: int, offset: int): int {
    (Midnight(now, offset) + (sch.h * 3600 + sch.m * 60 + sch.s) * SECOND) % DAY
  }

  /** The start of the current 24 h cycle: today's UTC date at that time of day, or the day before. */
  function ScheduleStart(sch: Schedule, now: int, offset: int): int {
    var start := Midnight(now, 0) + StartOfDay(sch, now, offset);
    if now < start then start - DAY else start
  }

  function RaceNumber(sch: Schedule, now: int, offset: int): int {
    var elapsed := now - ScheduleStart(sch, now, offset);
    if elapsed < 0 then 1 else elapsed / Interval(sch) + 1
  }

  function VideoStart(sch: Schedule, number: int, now: int, offset: int): int {
    ScheduleStart(sch, now, offset) + (number - 1) * Interval(sch)
  }

  /** The slot n races into the future (0 is the next race); negative n reaches into the past. */
  function ScheduledSlot(sch: Schedule, now: int, n: int, offset: int): int {
    VideoStart(sch, RaceNumber(sch, now, offset) + 1 + n, now, offset)
  }

  // ---------- the grid in closed form ----------

  /** The phase of the schedule start within the UTC day. */
  function Phase(sch: Schedule, offset: int): int {
    ((sch.h * 3600 + sch.m * 60 + sch.s) * SECOND - offset) % DAY
  }

  function DayIndex(sch: Schedule, now: int, offset: int): int {
    (now - Phase(sch, offset)) / DAY
  }

  lemma {:induction false} PhaseStable(sch: Schedule, now: int, offset: int)
    ensures StartOfDay(sch, now, offset) == Phase(sch, offset)
  {
    var d := (now + offset) / DAY;
    var c := (sch.h * 3600 + sch.m * 60 + sch.s) * SECOND - offset;
    assert Midnight(now, offset) + (sch.h * 3600 + sch.m * 60 + sch.s) * SECOND == d * DAY + c;
    ModDay(d, c);
  }

  lemma {:induction false} ModDay(d: int, c: int)
    ensures (d * DAY + c) % DAY == c % DAY && (d * DAY + c) / DAY == d + c / DAY
  {
  }

  /** The cycle start is the last instant at the schedule's phase that is not after now. */
  lemma {:induction false} ScheduleStartIs(sch: Schedule, now: int, offset: int)
    ensures ScheduleStart(sch, now, offset) == DayIndex(sch, now, offset) * DAY + Phase(sch, offset)
    ensures ScheduleStart(sch, now, offset) <= now < ScheduleStart(sch, now, offset) + DAY
  {
    hide Phase, StartOfDay;
    PhaseStable(sch, now, offset);
    PhaseWithinDay(sch, offset);
    var day, time := now / DAY, now % DAY;
    assert now == day * DAY + time;
    ModDay(day, time - Phase(sch, offset));
    NearestDay(time - Phase(sch, offset));
  }

  lemma {:induction false} NearestDay(c: int)
    requires -DAY <= c < 2 * DAY
    ensures c / DAY == if c < 0 then -1 else if c < DAY then 0 else 1
  {
  }

  /** The races fill the day exactly. */
  ghost predicate Fills(sch: Schedule) {
    0 < Interval(sch) <= DAY && DAY % Interval(sch) == 0
  }

  /** Schedules whose races fill the day, as all in the table do. */
  type DaySchedule = sch: Schedule | Fills(sch) witness Schedule(0, 0, 0, 240)

  function RacesPerDay(sch: Schedule): int {
    DAY / Interval(sch)
  }

  /** Numbers the race intervals of all days in one sequence. */
  function GridIndex(sch: Schedule, t: int, offset: int): int {
    (t - Phase(sch, offset)) / Interval(sch)
  }

  function GridSlot(sch: Schedule, g: int, offset: int): int {
    Phase(sch, offset) + g * Interval(sch)
  }

  /** On a schedule that fills the day, the race number is the position within the day's races. */
  lemma {:induction false} NumberOnGrid(sch: DaySchedule, now: int, offset: int)
    ensures var day, q := DayIndex(sch, now, offset), RacesPerDay(sch);
            && GridIndex(sch, now, offset) == day * q + RaceNumber(sch, now, offset) - 1
            && 1 <= RaceNumber(sch, now, offset) <= q
  {
    var i, q, day := Interval(sch), RacesPerDay(sch), DayIndex(sch, now, offset);
    var start := ScheduleStart(sch, now, offset);
    ScheduleStartIs(sch, now, offset);
    var elapsed := now - start;
    var k := elapsed / i;
    assert DAY == q * i;
    assert elapsed == k * i + elapsed % i;
    MulAssoc(day, q, i, DAY);
    MulAdd(day * q, k, i);
    DivModUnique(now - Phase(sch, offset), day * q + k, i, elapsed % i);
    QuotientBelow(elapsed, q, i);
  }

  /** A slot is always strictly in the future for n >= 0, and one more race is one interval later. */
  lemma {:induction false} SlotsAhead(sch: Schedule, now: int, n: int, offset: int)
    ensures n >= 0 ==> ScheduledSlot(sch, now, n, offset) > now
    ensures ScheduledSlot(sch, now, n + 1, offset) == ScheduledSlot(sch, now, n, offset) + Interval(sch)
  {
    var i := Interval(sch);
    ScheduleStartIs(sch, now, offset);
    var elapsed := now - ScheduleStart(sch, now, offset);
    var k := elapsed / i;
    assert elapsed == k * i + elapsed % i;
    MulAdd(k, 1 + n, i);
    MulAdd(1 + n, 1, i);
    MulAdd(k + 1 + n, 1, i);
    if n >= 0 {
      MulMonotone(0, n, i);
      MulAdd(1, n, i);
    }
  }

  /** A slot is the grid slot n + 1 intervals after the current one, across any day rollover and
      even when the race number exceeds the day's count. */
  lemma {:induction false} SlotOnGrid(sch: DaySchedule, now: int, n: int, offset: int)
    ensures ScheduledSlot(sch, now, n, offset) == GridSlot(sch, GridIndex(sch, now, offset) + 1 + n, offset)
  {
    hide ScheduleStart, GridIndex, DayIndex, RaceNumber, Phase;
    var i, q, day := Interval(sch), RacesPerDay(sch), DayIndex(sch, now, offset);
    var num := RaceNumber(sch, now, offset);
    NumberOnGrid(sch, now, offset);
    ScheduleStartIs(sch, now, offset);
    assert DAY == q * i;
    MulAssoc(day, q, i, DAY);
    MulAdd(day * q, num + n, i);
  }

  lemma {:induction false} GridSlotIndex(sch: Schedule, g: int, offset: int)
    ensures GridIndex(sch, GridSlot(sch, g, offset), offset) == g
  {
    DivModUnique(g * Interval(sch), g, Interval(sch), 0);
  }

  ghost predicate Recomputes(sch: Schedule, slot: int, offset: int) {
    VideoStart(sch, RaceNumber(sch, slot, offset), slot, offset) == slot
  }

  /** Every grid slot recomputes to itself from its own race number. */
  lemma {:induction false} GridSlotRecomputes(sch: DaySchedule, g: int, offset: int)
    ensures Recomputes(sch, GridSlot(sch, g, offset), offset)
  {
    var slot := GridSlot(sch, g, offset);
    var i, q, day := Interval(sch), RacesPerDay(sch), DayIndex(sch, slot, offset);
    var num := RaceNumber(sch, slot, offset);
    GridSlotIndex(sch, g, offset);
    NumberOnGrid(sch, slot, offset);
    ScheduleStartIs(sch, slot, offset);
    assert DAY == q * i;
    MulAssoc(day, q, i, DAY);
    MulAdd(day * q, num - 1, i);
  }

  ghost predicate AllSlotsRecompute(sch: Schedule, offset: int) {
    forall now: int, n: nat :: Recomputes(sch, ScheduledSlot(sch, now, n, offset), offset)
  }

  /** For intervals up to a day: scheduled slots recompute to themselves exactly when the interval
      divides the day. */
  lemma {:induction false} RecomputeExactlyWhenIntervalDividesDay(sch: Schedule, offset: int)
    requires 0 < Interval(sch) <= DAY
    ensures AllSlotsRecompute(sch, offset) <==> DAY % Interval(sch) == 0
  {
    if DAY % Interval(sch) == 0 {
      forall now: int, n: nat ensures Recomputes(sch, ScheduledSlot(sch, now, n, offset), offset) {
        SlotOnGrid(sch, now, n, offset);
        GridSlotRecomputes(sch, GridIndex(sch, now, offset) + 1 + n, offset);
      }
    } else {
      MissedRollover(sch, offset);
    }
  }

  /** The number, and the recomputed start, `elapsed` after the start of cycle d. */
  lemma {:induction false} WithinCycle(sch: Schedule, d: int, elapsed: int, offset: int)
    requires 0 <= elapsed < DAY
    ensures var t := d * DAY + Phase(sch, offset) + elapsed;
            && ScheduleStart(sch, t, offset) == d * DAY + Phase(sch, offset)
            && RaceNumber(sch, t, offset) == elapsed / Interval(sch) + 1
  {
    var t := d * DAY + Phase(sch, offset) + elapsed;
    ScheduleStartIs(sch, t, offset);
    DivModUnique(t - Phase(sch, offset), d, DAY, elapsed);
  }

  lemma {:induction false} IntervalsBeyondDay(i: int)
    requires 0 < i <= DAY && DAY % i != 0
    ensures (DAY / i + 1) * i == DAY + (i - DAY % i) && 0 < i - DAY % i < i && (i - DAY % i) / i == 0
  {
    assert DAY == DAY / i * i + DAY % i;
    MulAdd(DAY / i, 1, i);
    DivModUnique(i - DAY % i, 0, i, i - DAY % i);
  }

  /** Otherwise the first slot beyond the rollover does not. */
  lemma {:induction false} MissedRollover(sch: Schedule, offset: int)
    requires 0 < Interval(sch) <= DAY && DAY % Interval(sch) != 0
    ensures exists now: int, n: nat :: !Recomputes(sch, ScheduledSlot(sch, now, n, offset), offset)
  {
    hide ScheduleStart, RaceNumber, Phase, Interval;
    var i, now := Interval(sch), Phase(sch, offset);
    IntervalsBeyondDay(i);
    WithinCycle(sch, 0, 0, offset);
    WithinCycle(sch, 1, i - DAY % i, offset);
    var n: nat := DAY / i;
    var slot := ScheduledSlot(sch, now, n, offset);
    assert slot == now + (n + 1) * i;
    assert !Recomputes(sch, slot, offset);
  }

  // ---------- round codes ----------

  function Digit(d: nat): char
    requires d < 10
  {
    (d + 48) as char
  }

  /** %04d for numbers of at most four digits. */
  function Pad4(n: nat): (r: string)
    requires n < 10000
    ensures |r| == 4
  {
    [Digit(n / 10 / 10 / 10), Digit(n / 10 / 10 % 10), Digit(n / 10 % 10), Digit(n % 10)]
  }

  lemma {:induction false} DigitInjective(d: nat, e: nat)
    requires d < 10 && e < 10 && Digit(d) == Digit(e)
    ensures d == e
  {
  }

  lemma {:induction false} Pad4Injective(a: nat, b: nat)
    requires a < 10000 && b < 10000 && Pad4(a) == Pad4(b)
    ensures a == b
  {
    hide Digit;
    assert Pad4(a)[0] == Pad4(b)[0] && Pad4(a)[1] == Pad4(b)[1];
    assert Pad4(a)[2] == Pad4(b)[2] && Pad4(a)[3] == Pad4(b)[3];
    DigitInjective(a / 10 / 10 / 10, b / 10 / 10 / 10);
    DigitInjective(a / 10 / 10 % 10, b / 10 / 10 % 10);
    DigitInjective(a / 10 % 10, b / 10 % 10);
    DigitInjective(a % 10, b % 10);
    LastDigit(a / 10 / 10);
    LastDigit(b / 10 / 10);
    LastDigit(a / 10);
    LastDigit(b / 10);
    LastDigit(a);
    LastDigit(b);
  }

  /** A calendar formats day numbers as eight characters, differently for different days. */
  ghost predicate Calendar(date: int -> string) {
    (forall d :: |date(d)| == 8) && forall a, b :: date(a) == date(b) ==> a == b
  }

  /** betoffer and schedule, then the date one day after the cycle start, then the race number. */
  function RoundCode(prefix: string, date: int -> string, sch: Schedule, now: int, offset: int): string
    requires 0 <= RaceNumber(sch, now, offset) < 10000
  {
    prefix + date(ScheduleStart(sch, now, offset) / DAY + 1) + Pad4(RaceNumber(sch, now, offset))
  }

  lemma {:induction false} CodeParts(prefix: string, d1: string, n1: string, d2: string, n2: string)
    requires |d1| == |d2| && prefix + d1 + n1 == prefix + d2 + n2
    ensures d1 == d2 && n1 == n2
  {
    var a, b := prefix + d1 + n1, prefix + d2 + n2;
    var p, e := |prefix|, |prefix| + |d1|;
    assert d1 == a[p..e] && d2 == b[p..e];
    assert n1 == a[e..] && n2 == b[e..];
  }

  lemma {:induction false} StartDay(sch: Schedule, now: int, offset: int)
    ensures ScheduleStart(sch, now, offset) / DAY == DayIndex(sch, now, offset)
  {
    ScheduleStartIs(sch, now, offset);
    ModDay(DayIndex(sch, now, offset), Phase(sch, offset));
  }

  /** Under a fixed offset two instants have the same round code exactly when they fall into the
      same race interval: codes never repeat, on any day. */
  lemma {:induction false} CodeIdentifiesInterval(prefix: string, date: int -> string, sch: DaySchedule,
                                                  t: int, u: int, offset: int)
    requires RacesPerDay(sch) < 10000 && Calendar(date)
    ensures 0 <= RaceNumber(sch, t, offset) < 10000 && 0 <= RaceNumber(sch, u, offset) < 10000
    ensures RoundCode(prefix, date, sch, t, offset) == RoundCode(prefix, date, sch, u, offset) <==>
              GridIndex(sch, t, offset) == GridIndex(sch, u, offset)
  {
    NumberOnGrid(sch, t, offset);
    NumberOnGrid(sch, u, offset);
    StartDay(sch, t, offset);
    StartDay(sch, u, offset);
    var q := RacesPerDay(sch);
    var d1, d2 := DayIndex(sch, t, offset), DayIndex(sch, u, offset);
    var n1, n2 := RaceNumber(sch, t, offset), RaceNumber(sch, u, offset);
    if RoundCode(prefix, date, sch, t, offset) == RoundCode(prefix, date, sch, u, offset) {
      CodeParts(prefix, date(d1 + 1), Pad4(n1), date(d2 + 1), Pad4(n2));
      Pad4Injective(n1, n2);
    }
    if d1 * q + n1 - 1 == d2 * q + n2 - 1 {
      DivModUnique(d1 * q + n1 - 1, d1, q, n1 - 1);
      DivModUnique(d2 * q + n2 - 1, d2, q, n2 - 1);
    }
  }

  // ---------- what a code says ----------

  /** The number that a text of decimal digits stands for. */
  function Decimal(s: string): int {
    if |s| == 0 then 0 else Decimal(s[..|s| - 1]) * 10 + (s[|s| - 1] as int - '0' as int)
  }

  ghost predicate AllDigits(s: string) {
    forall i | 0 <= i < |s| :: '0' <= s[i] <= '9'
  }

  lemma {:induction false} Pad4Reads(n: nat)
    requires n < 10000
    ensures AllDigits(Pad4(n)) && Decimal(Pad4(n)) == n
  {
    hide Pad4;
    var a, b, c, d := n / 10 / 10 / 10, n / 10 / 10 % 10, n / 10 % 10, n % 10;
    FourDigits(n, a, b, c, d);
    LastDigit(n / 10 / 10);
    LastDigit(n / 10);
    LastDigit(n);
  }

  lemma {:induction false} FourDigits(n: nat, a: nat, b: nat, c: nat, d: nat)
    requires n < 10000 && a == n / 10 / 10 / 10 && b == n / 10 / 10 % 10 && c == n / 10 % 10 && d == n % 10
    ensures a < 10 && AllDigits(Pad4(n)) && Decimal(Pad4(n)) == ((a * 10 + b) * 10 + c) * 10 + d
  {
    var s := Pad4(n);
    assert s[..3][..2] == s[..2] && s[..2][..1] == s[..1] && s[..1][..0] == [];
    assert Decimal(s[..1]) == a;
    assert Decimal(s[..2]) == a * 10 + b;
    assert Decimal(s[..3]) == (a * 10 + b) * 10 + c;
  }

  /** Race numbers that four digits hold, at any time of day. */
  ghost predicate FourDigitNumbers(sch: Schedule) {
    (DAY - 1) / Interval(sch) < 9999
  }

  lemma {:induction false} NumberInDay(sch: Schedule, now: int, offset: int)
    ensures RaceNumber(sch, now, offset) == (now - Phase(sch, offset)) % DAY / Interval(sch) + 1
    ensures FourDigitNumbers(sch) ==> 0 < RaceNumber(sch, now, offset) < 10000
  {
    hide ScheduleStart, Phase;
    ScheduleStartIs(sch, now, offset);
    var elapsed := now - ScheduleStart(sch, now, offset);
    assert elapsed == (now - Phase(sch, offset)) % DAY;
    QuotientMonotone(elapsed, DAY - 1, Interval(sch));
    QuotientMonotone(0, elapsed, Interval(sch));
  }

  /** The eight characters after the prefix. */
  function DateIn(prefix: string, code: string): string {
    if |code| >= |prefix| + 8 then code[|prefix|..|prefix| + 8] else ""
  }

  /** The text of a code: the prefix, the date one day after the day the cycle began on, and in four decimal digits the
      place of the race within the cycle. */
  lemma {:induction false} CodeReads(prefix: string, date: int -> string, sch: Schedule, now: int, offset: int)
    requires Calendar(date) && FourDigitNumbers(sch)
    ensures 0 <= RaceNumber(sch, now, offset) < 10000
    ensures var code := RoundCode(prefix, date, sch, now, offset);
            && |code| == |prefix| + 12 && prefix <= code
            && DateIn(prefix, code) == date((now - Phase(sch, offset)) / DAY + 1)
            && AllDigits(code[|prefix| + 8..])
            && Decimal(code[|prefix| + 8..]) == (now - Phase(sch, offset)) % DAY / Interval(sch) + 1
  {
    hide ScheduleStart, Phase, RaceNumber, Pad4, Decimal;
    NumberInDay(sch, now, offset);
    StartDay(sch, now, offset);
    var n := RaceNumber(sch, now, offset);
    Pad4Reads(n);
    var d := date((now - Phase(sch, offset)) / DAY + 1);
    var code := RoundCode(prefix, date, sch, now, offset);
    assert code == prefix + d + Pad4(n);
    assert code[|prefix|..|prefix| + 8] == d && code[|prefix| + 8..] == Pad4(n);
  }

  /** The schedule's start within the Malta day. */
  function LocalStart(sch: Schedule): int {
    (sch.h * 3600 + sch.m * 60 + sch.s) * SECOND
  }

  /** Every cycle begins at the schedule's start of a Malta day. */
  lemma {:induction false} CycleBeginsAtLocalStart(sch: Schedule, now: int, offset: int)
    requires LocalStart(sch) < DAY
    ensures (ScheduleStart(sch, now, offset) + offset) % DAY == LocalStart(sch)
  {
    hide ScheduleStart;
    var day, c := DayIndex(sch, now, offset), LocalStart(sch) - offset;
    ScheduleStartIs(sch, now, offset);
    var k := c / DAY;
    assert c == k * DAY + Phase(sch, offset);
    DivModUnique(ScheduleStart(sch, now, offset) + offset, day - k, DAY, LocalStart(sch));
  }

  /** The date in a round code is the Malta date of the cycle's start exactly when that start's Malta time of day is
      below the offset. */
  lemma {:induction false} CodeDateIsMaltaDate(prefix: string, date: int -> string, sch: Schedule, now: int,
                                               offset: int)
    requires Calendar(date) && FourDigitNumbers(sch) && 0 <= offset <= DAY && 0 <= LocalStart(sch) < DAY
    ensures 0 <= RaceNumber(sch, now, offset) < 10000
    ensures DateIn(prefix, RoundCode(prefix, date, sch, now, offset)) ==
              date((ScheduleStart(sch, now, offset) + offset) / DAY) <==>
              LocalStart(sch) < offset
  {
    hide ScheduleStart, DayIndex, RaceNumber, Phase, RoundCode, DateIn, FourDigitNumbers, LocalStart;
    CodeReads(prefix, date, sch, now, offset);
    DayIndexIs(sch, now, offset);
    StartsOnMaltaDay(sch, now, offset);
  }

  /** The Malta date of the cycle's start, counted from the day that the cycle began on in UTC. */
  lemma {:induction false} StartsOnMaltaDay(sch: Schedule, now: int, offset: int)
    requires 0 <= offset <= DAY && 0 <= LocalStart(sch) < DAY
    ensures (ScheduleStart(sch, now, offset) + offset) / DAY ==
            DayIndex(sch, now, offset) + if LocalStart(sch) < offset then 1 else 0
  {
    hide ScheduleStart, DayIndex;
    var day := DayIndex(sch, now, offset);
    ScheduleStartIs(sch, now, offset);
    DivModUnique(ScheduleStart(sch, now, offset) + offset, if LocalStart(sch) < offset then day + 1 else day, DAY,
                 LocalStart(sch));
  }

  lemma {:induction false} DayIndexIs(sch: Schedule, now: int, offset: int)
    ensures DayIndex(sch, now, offset) == (now - Phase(sch, offset)) / DAY
  {
  }

  /** In winter time and beyond, the codes of the table's schedules carry the Malta date. */
  lemma {:induction false} TableCodesCarryMaltaDate(prefix: string, date: int -> string, gameType: string, now: int,
                                                    offset: int)
    requires 3600 * SECOND <= offset <= DAY && ScheduleOf(gameType).Some? && Calendar(date)
    ensures var sch := ScheduleOf(gameType).value;
            && 0 <= RaceNumber(sch, now, offset) < 10000
            && DateIn(prefix, RoundCode(prefix, date, sch, now, offset)) ==
                 date((ScheduleStart(sch, now, offset) + offset) / DAY)
  {
    hide ScheduleStart, RoundCode, RaceNumber;
    TableNumbersFit(gameType);
    CodeDateIsMaltaDate(prefix, date, ScheduleOf(gameType).value, now, offset);
  }

  lemma {:induction false} TableNumbersFit(gameType: string)
    ensures ScheduleOf(gameType).Some? ==> FourDigitNumbers(ScheduleOf(gameType).value)
  {
  }

  const HOUR: int := 3600 * SECOND

  /** Whether the date in the code is the date of now in CET, one hour ahead of UTC all year. */
  ghost predicate CodeDateIsCet(prefix: string, date: int -> string, sch: Schedule, now: int, offset: int) {
    && 0 <= RaceNumber(sch, now, offset) < 10000
    && DateIn(prefix, RoundCode(prefix, date, sch, now, offset)) == date((now + HOUR) / DAY)
  }

  /** The code's date is the CET date exactly when the cycle and the CET day have both begun on the UTC day, or
      neither has. */
  lemma {:induction false} CodeDateIsCetDate(prefix: string, date: int -> string, sch: Schedule, now: int, offset: int)
    requires Calendar(date) && FourDigitNumbers(sch)
    ensures CodeDateIsCet(prefix, date, sch, now, offset) <==>
              (now % DAY >= Phase(sch, offset) <==> now % DAY >= DAY - HOUR)
  {
    hide ScheduleStart, Phase, RaceNumber, RoundCode, DateIn;
    CodeReads(prefix, date, sch, now, offset);
    PhaseWithinDay(sch, offset);
    var day, time := now / DAY, now % DAY;
    assert now == day * DAY + time;
    ModDay(day, time - Phase(sch, offset));
    ModDay(day, time + HOUR);
    NearestDay(time - Phase(sch, offset));
    NearestDay(time + HOUR);
  }

  lemma {:induction false} PhaseWithinDay(sch: Schedule, offset: int)
    ensures 0 <= Phase(sch, offset) < DAY
  {
  }

  /** All codes of a schedule carry the CET date exactly when its cycle begins at 23:00 UTC. */
  lemma {:induction false} AllCodesCetExactlyWhen(prefix: string, date: int -> string, sch: Schedule, offset: int)
    requires Calendar(date) && FourDigitNumbers(sch)
    ensures (forall now :: CodeDateIsCet(prefix, date, sch, now, offset)) <==> Phase(sch, offset) == 23 * HOUR
  {
    hide CodeDateIsCet, Phase, Calendar, FourDigitNumbers;
    forall now ensures Phase(sch, offset) == 23 * HOUR ==> CodeDateIsCet(prefix, date, sch, now, offset) {
      CodeDateIsCetDate(prefix, date, sch, now, offset);
    }
    PhaseWithinDay(sch, offset);
    var first := if Phase(sch, offset) < DAY - HOUR then Phase(sch, offset) else DAY - HOUR;
    CodeDateIsCetDate(prefix, date, sch, first, offset);
  }

  /** At midnight starts, winter time keeps to the CET date; in summer time, from 22:00 to 23:00 UTC, the code
      is already a day ahead of it. */
  lemma {:induction false} SummerCodesRunAhead(prefix: string, date: int -> string, now: int)
    requires Calendar(date)
    ensures var sch := ScheduleOf("dog6").value;
            && CodeDateIsCet(prefix, date, sch, now, HOUR)
            && (CodeDateIsCet(prefix, date, sch, now, 2 * HOUR) <==> !(22 * HOUR <= now % DAY < 23 * HOUR))
  {
    hide CodeDateIsCet, Calendar;
    TableNumbersFit("dog6");
    CodeDateIsCetDate(prefix, date, ScheduleOf("dog6").value, now, HOUR);
    CodeDateIsCetDate(prefix, date, ScheduleOf("dog6").value, now, 2 * HOUR);
  }

  /** Half past ten in the evening, UTC, of the eighth of April 2026, in Malta's summer time: the code is that of the
      eighth race of the ninth, the day 20552 after the epoch. */
  lemma {:induction false} EighthRaceOfTheNinth(prefix: string, date: int -> string)
    requires Calendar(date)
    ensures var now := 20552 * DAY - 90 * 60 * SECOND;
            && RaceNumber(ScheduleOf("dog6").value, now, 2 * HOUR) == 8
            && RoundCode(prefix, date, ScheduleOf("dog6").value, now, 2 * HOUR) == prefix + date(20552) + "0008"
  {
    hide RaceNumber, ScheduleStart, Phase;
    var sch, now := ScheduleOf("dog6").value, 20552 * DAY - 90 * 60 * SECOND;
    MidnightSummerPhase();
    NumberInDay(sch, now, 2 * HOUR);
    StartDay(sch, now, 2 * HOUR);
    DayIndexIs(sch, now, 2 * HOUR);
    assert Pad4(8) == "0008";
  }

  lemma {:induction false} MidnightSummerPhase()
    ensures Phase(ScheduleOf("dog6").value, 2 * HOUR) == 22 * HOUR
  {
  }

  /** The schedules in the table fill the day with less than ten thousand races. */
  lemma {:induction false} TableFillsDay(gameType: string)
    ensures ScheduleOf(gameType).Some? ==>
              Fills(ScheduleOf(gameType).value) && RacesPerDay(ScheduleOf(gameType).value) < 10000
    ensures ScheduleOf(gameType).Some? <==> gameType in {"dog6", "dog63", "dog8", "horse", "horse_classic"}
    ensures ScheduleOf(gameType).Some? ==>
              var sch := ScheduleOf(gameType).value;
              && RacesPerDay(sch) == (if gameType == "horse" then 270 else 360)
              && LocalStart(sch) == (if gameType == "dog8" then 210 else if gameType == "horse_classic" then 60 else 0)
                                    * 1_000_000_000
  {
  }

  // ---------- the fallback grid ----------

  /** Nanoseconds from year 1, where truncation starts counting, to the Unix epoch. */
  const YEAR_ONE: int := 719162 * DAY

  /** nextFutureSlot: n + 1 intervals after now truncated to the interval. */
  function NextFutureSlot(now: int, intervalSec: int, n: int): int {
    if intervalSec <= 0 then (now + YEAR_ONE) / SECOND * SECOND - YEAR_ONE
    else
      var d := intervalSec * SECOND;
      (now + YEAR_ONE) / d * d - YEAR_ONE + (n + 1) * d
  }

  /** A fallback slot for n >= 0 is strictly after now exactly when the interval is positive, and then
      consecutive n differ by one interval. */
  lemma {:induction false} FallbackSlotsAhead(now: int, intervalSec: int, n: nat)
    ensures NextFutureSlot(now, intervalSec, n) > now <==> intervalSec > 0
    ensures intervalSec > 0 ==>
              NextFutureSlot(now, intervalSec, n + 1) == NextFutureSlot(now, intervalSec, n) + intervalSec * SECOND
  {
    if intervalSec > 0 {
      var d := intervalSec * SECOND;
      MulAdd(n + 1, 1, d);
      MulMonotone(1, n + 1, d);
      Truncated(now + YEAR_ONE, d);
    }
  }

  /** Truncation counts from year 1, so fallback slots are multiples of the interval since the Unix epoch
      exactly when the interval divides the time between the two. */
  lemma {:induction false} FallbackAlignedExactlyWhen(now: int, intervalSec: int, n: nat)
    requires intervalSec > 0
    ensures NextFutureSlot(now, intervalSec, n) % (intervalSec * SECOND) == 0 <==>
              YEAR_ONE % (intervalSec * SECOND) == 0
  {
    var d := intervalSec * SECOND;
    var k := (now + YEAR_ONE) / d;
    MulAdd(k, n + 1, d);
    ShiftedMultiple(k + (n + 1), YEAR_ONE, d, NextFutureSlot(now, intervalSec, n));
  }

  /** An interval of seven seconds does not divide it: no slot is a multiple of seven seconds. */
  lemma {:induction false} SevenSecondSlots(now: int, n: nat)
    ensures NextFutureSlot(now, 7, n) % (7 * SECOND) != 0
  {
    hide NextFutureSlot;
    FallbackAlignedExactlyWhen(now, 7, n);
  }

  /** The slot of a runner: the schedule's grid, or the fallback grid for an unknown game type. */
  function RunnerSlot(gameType: string, intervalSec: int, now: int, n: int, offset: int): int {
    match ScheduleOf(gameType)
    case None => NextFutureSlot(now, intervalSec, n)
    case Some(sch) =>
      ScheduledSlot(sch, now, n, offset)
  }

  /** A runner's slots for n >= 0 are strictly in the future exactly when its game type has a schedule or
      its configured interval is positive. */
  lemma {:induction false} RunnerSlotsAhead(gameType: string, intervalSec: int, now: int, n: nat, offset: int)
    ensures RunnerSlot(gameType, intervalSec, now, n, offset) > now <==> ScheduleOf(gameType).Some? || intervalSec > 0
  {
    hide ScheduledSlot, NextFutureSlot;
    FallbackSlotsAhead(now, intervalSec, n);
    if ScheduleOf(gameType).Some? {
      SlotsAhead(ScheduleOf(gameType).value, now, n, offset);
    }
  }
}
