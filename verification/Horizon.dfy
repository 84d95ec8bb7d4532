/** The horizon scheduler of cmd/race-generator/main.go: boot, per-tick extension by one slot,
    and bounded retries, over the slot grid of RaceGrid. */
module Horizon {
  import opened Arithmetic
  import opened Basics
  import opened RaceGrid

  // ---------- outcomes of the generation pipeline ----------

  /** An error value: the system errors it wraps and its message. */
  datatype PipelineError = PipelineError(permission: bool, noSpace: bool, io: bool, message: string)

  datatype Outcome = Persisted | Failed(error: PipelineError) | Panicked | EntropyPanic

  predicate Contains(s: string, needle: string)
    decreases |s|
  {
    needle <= s || (|s| > 0 && Contains(s[1..], needle))
  }

  predicate IsTransientErr(e: PipelineError) {
    || e.permission || e.noSpace || e.io
    || Contains(e.message, "database is locked") || Contains(e.message, "SQLITE_BUSY")
    || Contains(e.message, "disk is full") || Contains(e.message, "no space left on device")
  }

  predicate Transient(o: Outcome) {
    o.Failed? && IsTransientErr(o.error)
  }

  // ---------- one runner ----------

  const MAX_RETRIES: nat := 3

  /** lastSlot, retryCount, and whether the process was stopped by an entropy failure. */
  datatype RunnerState = RunnerState(last: int, retries: nat, halted: bool)

  /** What one attempt at a slot does to the runner. */
  function AfterAttempt(st: RunnerState, slot: int, o: Outcome): RunnerState {
    if o.EntropyPanic? then st.(halted := true)
    else if Transient(o) && st.retries < MAX_RETRIES then st.(retries := st.retries + 1)
    else RunnerState(slot, 0, st.halted)
  }

  /** A tick attempts its slot only when that lies strictly after the last one. */
  predicate Attempts(st: RunnerState, slot: int) {
    !st.halted && slot > st.last
  }

  function AfterTick(st: RunnerState, slot: int, o: Outcome): RunnerState {
    if Attempts(st, slot) then AfterAttempt(st, slot, o) else st
  }

  class Runner {
    const sch: Schedule
    var lastSlot: int
    var retryCount: nat

    constructor (sch: Schedule)
      ensures this.sch == sch && lastSlot == -YEAR_ONE && retryCount == 0
    {
      this.sch := sch;
      lastSlot, retryCount := -YEAR_ONE, 0;
    }

    ghost function State(): RunnerState
      reads this
    {
      RunnerState(lastSlot, retryCount, false)
    }

    /** Returns whether the process must stop. */
    method TickRunner(slot: int, o: Outcome) returns (fatal: bool)
      modifies this
      ensures State().(halted := fatal) == AfterAttempt(old(State()), slot, o)
    {
      match o {
        case EntropyPanic => return true;
        case Panicked =>
          lastSlot, retryCount := slot, 0;
        case Failed(error) =>
          if IsTransientErr(error) && retryCount < MAX_RETRIES {
            retryCount := retryCount + 1;
            return false;
          }
          lastSlot, retryCount := slot, 0;
        case Persisted =>
          lastSlot, retryCount := slot, 0;
      }
      fatal := false;
    }

    /** Generates the n slots after now; stops at the first failure. */
    method BootBulk(now: int, n: nat, offset: int, outcomes: seq<Outcome>)
      returns (ok: bool, attempted: seq<int>)
      requires |outcomes| == n
      modifies this`lastSlot
      ensures ok <==> forall i | 0 <= i < n :: outcomes[i].Persisted?
      ensures |attempted| <= n && forall i | 0 <= i < |attempted| :: attempted[i] == ScheduledSlot(sch, now, i, offset)
      ensures ok ==> |attempted| == n
      ensures !ok ==>
                && |attempted| > 0 && !outcomes[|attempted| - 1].Persisted?
                && forall j | 0 <= j < |attempted| - 1 :: outcomes[j].Persisted?
      ensures var done := if ok then n else |attempted| - 1;
              lastSlot == if done == 0 then old(lastSlot) else ScheduledSlot(sch, now, done - 1, offset)
    {
      hide ScheduledSlot;
      attempted := [];
      for i := 0 to n
        invariant |attempted| == i && forall j | 0 <= j < i :: outcomes[j].Persisted?
        invariant forall j | 0 <= j < i :: attempted[j] == ScheduledSlot(sch, now, j, offset)
        invariant lastSlot == if i == 0 then old(lastSlot) else ScheduledSlot(sch, now, i - 1, offset)
      {
        var slot := ScheduledSlot(sch, now, i, offset);
        attempted := attempted + [slot];
        if !outcomes[i].Persisted? {
          return false, attempted;
        }
        lastSlot := slot;
      }
      ok := true;
    }

    /** Generates the `past` finished slots and the current one, in order; leaves lastSlot alone. */
    method BootBackfill(now: int, past: nat, offset: int, outcomes: seq<Outcome>)
      returns (ok: bool, attempted: seq<int>)
      requires |outcomes| == past + 1
      ensures ok <==> forall i | 0 <= i <= past :: outcomes[i].Persisted?
      ensures |attempted| <= past + 1
      ensures forall i | 0 <= i < |attempted| :: attempted[i] == ScheduledSlot(sch, now, i - past - 1, offset)
      ensures ok ==> |attempted| == past + 1
      ensures !ok ==>
                && |attempted| > 0 && !outcomes[|attempted| - 1].Persisted?
                && forall j | 0 <= j < |attempted| - 1 :: outcomes[j].Persisted?
    {
      hide ScheduledSlot;
      attempted := [];
      for i := 0 to past + 1
        invariant |attempted| == i && forall j | 0 <= j < i :: outcomes[j].Persisted?
        invariant forall j | 0 <= j < i :: attempted[j] == ScheduledSlot(sch, now, j - past - 1, offset)
      {
        attempted := attempted + [ScheduledSlot(sch, now, i - past - 1, offset)];
        if !outcomes[i].Persisted? {
          return false, attempted;
        }
      }
      ok := true;
    }
  }

  /** One scheduler tick: every runner in turn, until an entropy failure stops the process. */
  method TickHorizon(runners: seq<Runner>, now: int, bulk: nat, offset: int, outcomes: seq<Outcome>)
    returns (stoppedAt: nat)
    requires bulk > 0 && |outcomes| == |runners| && Distinct(runners)
    modifies set i | 0 <= i < |runners| :: runners[i]
    ensures stoppedAt <= |runners|
    ensures forall i | 0 <= i < stoppedAt ::
              var slot := ScheduledSlot(runners[i].sch, now, bulk - 1, offset);
              runners[i].State() == AfterTick(old(runners[i].State()), slot, outcomes[i])
    ensures forall i | stoppedAt <= i < |runners| :: runners[i].State() == old(runners[i].State())
    ensures stoppedAt < |runners| ==>
              var slot := ScheduledSlot(runners[stoppedAt].sch, now, bulk - 1, offset);
              AfterTick(old(runners[stoppedAt].State()), slot, outcomes[stoppedAt]).halted
  {
    hide ScheduledSlot;
    for i := 0 to |runners|
      invariant forall j | 0 <= j < i ::
                  runners[j].State() ==
                    AfterTick(old(runners[j].State()), ScheduledSlot(runners[j].sch, now, bulk - 1, offset),
                              outcomes[j])
      invariant forall j | i <= j < |runners| :: runners[j].State() == old(runners[j].State())
    {
      var r := runners[i];
      var slot := ScheduledSlot(r.sch, now, bulk - 1, offset);
      if slot > r.lastSlot {
        var fatal := r.TickRunner(slot, outcomes[i]);
        if fatal {
          return i;
        }
      }
    }
    stoppedAt := |runners|;
  }

  // ---------- runs ----------

  /** A tick at an instant, and how the pipeline would answer if the tick attempts its slot. */
  datatype Tick = Tick(now: int, outcome: Outcome)

  datatype Attempt = Attempt(slot: int, outcome: Outcome)

  function SlotAt(sch: Schedule, bulk: nat, offset: int, now: int): int {
    ScheduledSlot(sch, now, bulk - 1, offset)
  }

  function RunState(sch: Schedule, bulk: nat, offset: int, st: RunnerState, ticks: seq<Tick>): RunnerState {
    if |ticks| == 0 then st else
      var m := |ticks| - 1;
      AfterTick(RunState(sch, bulk, offset, st, ticks[..m]), SlotAt(sch, bulk, offset, ticks[m].now), ticks[m].outcome)
  }

  /** The attempts a run makes, in order. */
  function RunLog(sch: Schedule, bulk: nat, offset: int, st: RunnerState, ticks: seq<Tick>): seq<Attempt> {
    if |ticks| == 0 then [] else
      var m := |ticks| - 1;
      var slot := SlotAt(sch, bulk, offset, ticks[m].now);
      RunLog(sch, bulk, offset, st, ticks[..m]) +
      if Attempts(RunState(sch, bulk, offset, st, ticks[..m]), slot) then [Attempt(slot, ticks[m].outcome)] else []
  }

  /** Under any cadence and any outcomes the last slot never moves back, and there are never more than
      three retries pending. */
  lemma {:induction false} SlotsOnlyMoveForward(sch: Schedule, bulk: nat, offset: int, st: RunnerState,
                                                ticks: seq<Tick>, k: nat)
    requires st.retries <= 3 && k <= |ticks|
    ensures var before, after := RunState(sch, bulk, offset, st, ticks[..k]), RunState(sch, bulk, offset, st, ticks);
            && before.last <= after.last && after.retries <= 3
            && (before.halted ==> after == before)
    decreases |ticks|
  {
    hide ScheduledSlot;
    if k == |ticks| {
      assert ticks[..k] == ticks;
      if k > 0 {
        SlotsOnlyMoveForward(sch, bulk, offset, st, ticks[..k - 1], 0);
      }
    } else {
      var m := |ticks| - 1;
      SlotsOnlyMoveForward(sch, bulk, offset, st, ticks[..m], k);
      assert ticks[..m][..k] == ticks[..k];
    }
  }

  /** The grid index being worked on after a log, and the transient failures it has had. */
  function Cursor(log: seq<Attempt>, first: int): (int, nat) {
    if |log| == 0 then (first, 0) else
      var (s, t) := Cursor(log[..|log| - 1], first);
      var o := log[|log| - 1].outcome;
      if o.EntropyPanic? then (s, t) else if Transient(o) && t < MAX_RETRIES then (s, t + 1) else (s + 1, 0)
  }

  /** Every attempt is at the slot the cursor stands on: the slots attempted are consecutive grid
      slots from `first` on, and each is left only once it is persisted, or given up after one
      permanent error or panic, or after exactly four transient failures. */
  ghost predicate GapFree(log: seq<Attempt>, sch: Schedule, first: int, offset: int) {
    |log| == 0 ||
    var m := |log| - 1;
    && GapFree(log[..m], sch, first, offset)
    && log[m].slot == GridSlot(sch, Cursor(log[..m], first).0, offset)
  }

  function TicksIn(sch: Schedule, offset: int, times: seq<int>, g: int): nat {
    if |times| == 0 then 0 else
      var m := |times| - 1;
      TicksIn(sch, offset, times[..m], g) + if GridIndex(sch, times[m], offset) == g then 1 else 0
  }

  /** The race interval of the latest tick; that of boot before the first one. */
  function Latest(sch: Schedule, offset: int, times: seq<int>, boot: int): int {
    if |times| == 0 then boot else GridIndex(sch, times[|times| - 1], offset)
  }

  /** No race interval is passed over, and none after the boot interval is left before it has seen four
      ticks. Only the instants of the ticks matter. */
  ghost predicate Cadence(sch: Schedule, offset: int, times: seq<int>, boot: int) {
    |times| == 0 ||
    var m := |times| - 1;
    var before, g := Latest(sch, offset, times[..m], boot), GridIndex(sch, times[m], offset);
    && Cadence(sch, offset, times[..m], boot)
    && (g == before || g == before + 1)
    && (g == before + 1 && before > boot ==> TicksIn(sch, offset, times[..m], before) >= 4)
  }

  function Instants(ticks: seq<Tick>): (r: seq<int>)
    ensures |r| == |ticks|
  {
    seq(|ticks|, i requires 0 <= i < |ticks| => ticks[i].now)
  }

  lemma {:induction false} CadenceBounds(sch: Schedule, offset: int, times: seq<int>, boot: int, g: int)
    requires Cadence(sch, offset, times, boot)
    ensures Latest(sch, offset, times, boot) >= boot
    ensures g > Latest(sch, offset, times, boot) ==> TicksIn(sch, offset, times, g) == 0
    decreases |times|
  {
    hide GridIndex;
    if |times| > 0 {
      CadenceBounds(sch, offset, times[..|times| - 1], boot, g);
    }
  }

  lemma {:induction false} GridSlotOrder(sch: Schedule, a: int, b: int, offset: int)
    requires Interval(sch) > 0
    ensures GridSlot(sch, a, offset) < GridSlot(sch, b, offset) <==> a < b
  {
    if a < b {
      MulMonotone(a + 1, b, Interval(sch));
      MulAdd(a, 1, Interval(sch));
    } else {
      MulMonotone(b, a, Interval(sch));
    }
  }

  /** Where a run stands: at the far edge of the horizon of the latest interval, or one slot short
      of it with nothing but transient failures so far in that interval. */
  ghost predicate Standing(sch: Schedule, bulk: nat, offset: int, boot: int, times: seq<int>,
                           st: RunnerState, log: seq<Attempt>)
  {
    var first := boot + bulk + 1;
    var (edge, t) := Cursor(log, first);
    var g := Latest(sch, offset, times, boot);
    && GapFree(log, sch, first, offset)
    && (!st.halted ==>
          && st.last == GridSlot(sch, edge - 1, offset) && st.retries == t <= MAX_RETRIES
          && (edge == g + bulk + 1 || (edge == g + bulk && g > boot && t == TicksIn(sch, offset, times, g)))
          && (edge == g + bulk + 1 ==> t == 0))
  }

  lemma {:induction false} LogAppend(log: seq<Attempt>, a: Attempt, sch: Schedule, first: int, offset: int)
    ensures var (s, t) := Cursor(log, first);
            && (GapFree(log + [a], sch, first, offset) <==>
                  GapFree(log, sch, first, offset) && a.slot == GridSlot(sch, s, offset))
            && Cursor(log + [a], first) ==
                 (if a.outcome.EntropyPanic? then (s, t)
                  else if Transient(a.outcome) && t < MAX_RETRIES then (s, t + 1) else (s + 1, 0))
  {
    hide Transient, GridSlot;
    assert (log + [a])[..|log|] == log;
  }

  lemma {:induction false} TickStep(sch: DaySchedule, bulk: nat, offset: int, boot: int, times: seq<int>, o: Outcome,
                                    st: RunnerState, log: seq<Attempt>)
    requires bulk > 0 && |times| > 0 && Cadence(sch, offset, times, boot)
    requires Standing(sch, bulk, offset, boot, times[..|times| - 1], st, log)
    ensures var slot := SlotAt(sch, bulk, offset, times[|times| - 1]);
            Standing(sch, bulk, offset, boot, times, AfterTick(st, slot, o),
                     log + if Attempts(st, slot) then [Attempt(slot, o)] else [])
  {
    hide GridIndex, ScheduledSlot, GridSlot, Transient, GapFree, Cursor;
    var m := |times| - 1;
    var g := GridIndex(sch, times[m], offset);
    var first := boot + bulk + 1;
    var edge := Cursor(log, first).0;
    SlotOnGrid(sch, times[m], bulk - 1, offset);
    GridSlotOrder(sch, edge - 1, g + bulk, offset);
    CadenceBounds(sch, offset, times[..m], boot, g);
    LogAppend(log, Attempt(SlotAt(sch, bulk, offset, times[m]), o), sch, first, offset);
    assert log + [] == log;
  }

  lemma {:induction false} RunStands(sch: DaySchedule, bulk: nat, offset: int, boot: int, st: RunnerState,
                                     ticks: seq<Tick>)
    requires bulk > 0 && Cadence(sch, offset, Instants(ticks), boot)
    requires st == RunnerState(GridSlot(sch, boot + bulk, offset), 0, false)
    ensures Standing(sch, bulk, offset, boot, Instants(ticks), RunState(sch, bulk, offset, st, ticks),
                     RunLog(sch, bulk, offset, st, ticks))
    decreases |ticks|
  {
    hide GridIndex, ScheduledSlot, GridSlot, AfterTick, Attempts;
    if |ticks| > 0 {
      var m := |ticks| - 1;
      assert Instants(ticks)[..m] == Instants(ticks[..m]);
      RunStands(sch, bulk, offset, boot, st, ticks[..m]);
      TickStep(sch, bulk, offset, boot, Instants(ticks), ticks[m].outcome, RunState(sch, bulk, offset, st, ticks[..m]),
               RunLog(sch, bulk, offset, st, ticks[..m]));
    }
  }

  /** The runner after a successful boot. */
  function Booted(sch: Schedule, bulk: nat, offset: int, bootTime: int): RunnerState {
    RunnerState(ScheduledSlot(sch, bootTime, bulk - 1, offset), 0, false)
  }

  lemma {:induction false} BootedAtEdge(sch: DaySchedule, bulk: nat, offset: int, bootTime: int)
    ensures Booted(sch, bulk, offset, bootTime) ==
            RunnerState(GridSlot(sch, GridIndex(sch, bootTime, offset) + bulk, offset), 0, false)
  {
    SlotOnGrid(sch, bootTime, bulk - 1, offset);
  }

  /** From boot on, a runner whose every race interval sees at least four ticks attempts
      consecutive grid slots, each until persisted, given up on a permanent error or panic, or
      given up on its fourth transient failure; and once an interval has had four ticks the
      horizon is filled to its far edge. */
  lemma {:induction false} HorizonHasNoGaps(sch: DaySchedule, bulk: nat, offset: int, bootTime: int, ticks: seq<Tick>)
    requires bulk > 0
    requires Cadence(sch, offset, Instants(ticks), GridIndex(sch, bootTime, offset))
    ensures var boot := GridIndex(sch, bootTime, offset);
            var st := Booted(sch, bulk, offset, bootTime);
            var end, g := RunState(sch, bulk, offset, st, ticks), Latest(sch, offset, Instants(ticks), boot);
            && GapFree(RunLog(sch, bulk, offset, st, ticks), sch, boot + bulk + 1, offset)
            && (!end.halted && (g == boot || TicksIn(sch, offset, Instants(ticks), g) >= 4) ==>
                  end.last == GridSlot(sch, g + bulk, offset) && end.retries == 0)
  {
    hide ScheduledSlot, GridIndex, GridSlot, RunState, RunLog, GapFree, Cursor, TicksIn, Booted;
    BootedAtEdge(sch, bulk, offset, bootTime);
    RunStands(sch, bulk, offset, GridIndex(sch, bootTime, offset), Booted(sch, bulk, offset, bootTime), ticks);
  }

  // ---------- without the cadence ----------

  /** A transient failure. */
  const BUSY: Outcome := Failed(PipelineError(true, false, false, ""))

  lemma {:induction false} BusyIsTransient()
    ensures Transient(BUSY) && !BUSY.EntropyPanic? && !Transient(Persisted)
  {
  }

  /** The pipeline is busy throughout interval b and persists everything before it. */
  function BusyIn(sch: Schedule, offset: int, b: int, now: int): Tick {
    Tick(now, if GridIndex(sch, now, offset) == b then BUSY else Persisted)
  }

  function BusyTicks(sch: Schedule, offset: int, b: int, times: seq<int>): (r: seq<Tick>)
    ensures |r| == |times| && Instants(r) == times
  {
    seq(|times|, i requires 0 <= i < |times| => BusyIn(sch, offset, b, times[i]))
  }

  lemma {:induction false} NoLog(sch: Schedule, bulk: nat, offset: int, st: RunnerState, first: int)
    ensures RunState(sch, bulk, offset, st, []) == st && RunLog(sch, bulk, offset, st, []) == []
    ensures Cursor([], first) == (first, 0)
  {
  }

  lemma {:induction false} RunNext(sch: Schedule, bulk: nat, offset: int, st: RunnerState, ticks: seq<Tick>, tick: Tick)
    ensures var before, slot := RunState(sch, bulk, offset, st, ticks), SlotAt(sch, bulk, offset, tick.now);
            && RunState(sch, bulk, offset, st, ticks + [tick]) == AfterTick(before, slot, tick.outcome)
            && RunLog(sch, bulk, offset, st, ticks + [tick]) ==
                 RunLog(sch, bulk, offset, st, ticks) +
                 if Attempts(before, slot) then [Attempt(slot, tick.outcome)] else []
  {
    hide ScheduledSlot, AfterTick;
    assert (ticks + [tick])[..|ticks|] == ticks;
  }

  /** Where such a run stands: on the slot of interval b with as many failures as the interval has seen
      ticks, or at the far edge before it. */
  ghost predicate Behind(sch: Schedule, bulk: nat, offset: int, boot: int, times: seq<int>, b: int,
                         st: RunnerState, log: seq<Attempt>)
  {
    var (edge, t) := Cursor(log, boot + bulk + 1);
    var g := Latest(sch, offset, times, boot);
    && !st.halted && st.last == GridSlot(sch, edge - 1, offset) && st.retries == t
    && (if g == b then edge == b + bulk && t == TicksIn(sch, offset, times, b) else edge == g + bulk + 1 && t == 0)
  }

  lemma {:induction false} BusyStep(sch: DaySchedule, bulk: nat, offset: int, boot: int, times: seq<int>, b: int,
                                    st: RunnerState, log: seq<Attempt>)
    requires bulk > 0 && boot < b && |times| > 0 && Cadence(sch, offset, times, boot)
    requires Latest(sch, offset, times, boot) <= b && TicksIn(sch, offset, times, b) < 4
    requires Behind(sch, bulk, offset, boot, times[..|times| - 1], b, st, log)
    ensures var tick := BusyIn(sch, offset, b, times[|times| - 1]);
            var slot := SlotAt(sch, bulk, offset, tick.now);
            Behind(sch, bulk, offset, boot, times, b, AfterTick(st, slot, tick.outcome),
                   log + if Attempts(st, slot) then [Attempt(slot, tick.outcome)] else [])
  {
    hide GridIndex, ScheduledSlot, GridSlot, Transient, GapFree, Cursor;
    var m := |times| - 1;
    var g := GridIndex(sch, times[m], offset);
    var edge := Cursor(log, boot + bulk + 1).0;
    CadenceBounds(sch, offset, times[..m], boot, b);
    BusyIsTransient();
    SlotOnGrid(sch, times[m], bulk - 1, offset);
    GridSlotOrder(sch, edge - 1, g + bulk, offset);
    LogAppend(log, Attempt(SlotAt(sch, bulk, offset, times[m]), BusyIn(sch, offset, b, times[m]).outcome), sch,
              boot + bulk + 1, offset);
    assert log + [] == log;
  }

  /** While interval b has seen fewer than four ticks, all busy, its slot is still the one worked on. */
  lemma {:induction false} BusyInterval(sch: DaySchedule, bulk: nat, offset: int, boot: int, st: RunnerState,
                                        times: seq<int>, b: int)
    requires bulk > 0 && boot < b && Cadence(sch, offset, times, boot)
    requires st == RunnerState(GridSlot(sch, boot + bulk, offset), 0, false)
    requires Latest(sch, offset, times, boot) <= b && TicksIn(sch, offset, times, b) < 4
    ensures var ticks := BusyTicks(sch, offset, b, times);
            Behind(sch, bulk, offset, boot, times, b, RunState(sch, bulk, offset, st, ticks),
                   RunLog(sch, bulk, offset, st, ticks))
    decreases |times|
  {
    hide GridIndex, ScheduledSlot, GridSlot, AfterTick, Attempts, RunState, RunLog, Cursor;
    NoLog(sch, bulk, offset, st, boot + bulk + 1);
    if |times| > 0 {
      var m := |times| - 1;
      var ticks := BusyTicks(sch, offset, b, times);
      assert ticks == BusyTicks(sch, offset, b, times[..m]) + [BusyIn(sch, offset, b, times[m])];
      BusyInterval(sch, bulk, offset, boot, st, times[..m], b);
      RunNext(sch, bulk, offset, st, BusyTicks(sch, offset, b, times[..m]), BusyIn(sch, offset, b, times[m]));
      BusyStep(sch, bulk, offset, boot, times, b,
               RunState(sch, bulk, offset, st, BusyTicks(sch, offset, b, times[..m])),
               RunLog(sch, bulk, offset, st, BusyTicks(sch, offset, b, times[..m])));
    }
  }

  /** The instants do not fall back into an earlier race interval. */
  ghost predicate Forward(sch: Schedule, offset: int, times: seq<int>, boot: int) {
    |times| == 0 ||
    (var m := |times| - 1;
     Forward(sch, offset, times[..m], boot) &&
     GridIndex(sch, times[m], offset) >= Latest(sch, offset, times[..m], boot))
  }

  lemma {:induction false} FirstBreakSkips(sch: DaySchedule, bulk: nat, offset: int, boot: int, st: RunnerState,
                                           times: seq<int>) returns (ticks: seq<Tick>)
    requires bulk > 0 && |times| > 0 && !Cadence(sch, offset, times, boot)
    requires Cadence(sch, offset, times[..|times| - 1], boot)
    requires GridIndex(sch, times[|times| - 1], offset) >= Latest(sch, offset, times[..|times| - 1], boot)
    requires st == RunnerState(GridSlot(sch, boot + bulk, offset), 0, false)
    ensures Instants(ticks) == times
    ensures !GapFree(RunLog(sch, bulk, offset, st, ticks), sch, boot + bulk + 1, offset)
  {
    hide GridIndex, ScheduledSlot, GridSlot, GapFree, Cursor, TicksIn, RunState, RunLog, Transient;
    var m := |times| - 1;
    var before, g := Latest(sch, offset, times[..m], boot), GridIndex(sch, times[m], offset);
    var b := if g == before + 1 then before else before + 1;
    CadenceBounds(sch, offset, times[..m], boot, before + 1);
    BusyInterval(sch, bulk, offset, boot, st, times[..m], b);
    var earlier := BusyTicks(sch, offset, b, times[..m]);
    ticks := earlier + [Tick(times[m], Persisted)];
    RunNext(sch, bulk, offset, st, earlier, Tick(times[m], Persisted));
    var log := RunLog(sch, bulk, offset, st, earlier);
    var edge := Cursor(log, boot + bulk + 1).0;
    SlotOnGrid(sch, times[m], bulk - 1, offset);
    GridSlotOrder(sch, edge - 1, g + bulk, offset);
    GridSlotOrder(sch, edge, g + bulk, offset);
    LogAppend(log, Attempt(SlotAt(sch, bulk, offset, times[m]), Persisted), sch, boot + bulk + 1, offset);
  }

  /** At the first tick that breaks the cadence the runner, busy throughout the interval before, leaves
      the slot it was working on. */
  lemma {:induction false} BrokenCadenceSkips(sch: DaySchedule, bulk: nat, offset: int, boot: int, st: RunnerState,
                                              times: seq<int>) returns (ticks: seq<Tick>)
    requires bulk > 0 && Forward(sch, offset, times, boot) && !Cadence(sch, offset, times, boot)
    requires st == RunnerState(GridSlot(sch, boot + bulk, offset), 0, false)
    ensures Instants(ticks) == times
    ensures !GapFree(RunLog(sch, bulk, offset, st, ticks), sch, boot + bulk + 1, offset)
    decreases |times|
  {
    hide GridIndex, ScheduledSlot, GridSlot, GapFree, Cursor, TicksIn, RunState, RunLog, AfterTick, Attempts;
    var m := |times| - 1;
    if Cadence(sch, offset, times[..m], boot) {
      ticks := FirstBreakSkips(sch, bulk, offset, boot, st, times);
    } else {
      var before := BrokenCadenceSkips(sch, bulk, offset, boot, st, times[..m]);
      ticks := before + [Tick(times[m], Persisted)];
      RunNext(sch, bulk, offset, st, before, Tick(times[m], Persisted));
      var log := RunLog(sch, bulk, offset, st, before);
      LogAppend(log, Attempt(SlotAt(sch, bulk, offset, times[m]), Persisted), sch, boot + bulk + 1, offset);
      assert log + [] == log;
    }
  }

  /** Every slot keeps its own four attempts and none is skipped, whatever the pipeline answers, exactly
      when the ticks keep the cadence. */
  lemma {:induction false} NoGapsExactlyWhenCadence(sch: DaySchedule, bulk: nat, offset: int, bootTime: int,
                                                    times: seq<int>)
    requires bulk > 0 && Forward(sch, offset, times, GridIndex(sch, bootTime, offset))
    ensures var boot := GridIndex(sch, bootTime, offset);
            var st := Booted(sch, bulk, offset, bootTime);
            (forall ticks | Instants(ticks) == times ::
               GapFree(RunLog(sch, bulk, offset, st, ticks), sch, boot + bulk + 1, offset))
            <==> Cadence(sch, offset, times, boot)
  {
    hide GridIndex, ScheduledSlot, GridSlot, GapFree, Cadence, Forward, RunLog, RunState, TicksIn, Instants, Booted;
    var boot, st := GridIndex(sch, bootTime, offset), Booted(sch, bulk, offset, bootTime);
    if Cadence(sch, offset, times, boot) {
      forall ticks | Instants(ticks) == times
        ensures GapFree(RunLog(sch, bulk, offset, st, ticks), sch, boot + bulk + 1, offset)
      {
        HorizonHasNoGaps(sch, bulk, offset, bootTime, ticks);
      }
    } else {
      BootedAtEdge(sch, bulk, offset, bootTime);
      var ticks := BrokenCadenceSkips(sch, bulk, offset, boot, st, times);
    }
  }

  /** Backfill and bulk generation together cover consecutive grid slots, from `past` races before
      the current one to the far edge of the horizon. */
  lemma {:induction false} BootCoversTimeline(sch: DaySchedule, now: int, past: nat, bulk: nat, offset: int, i: nat)
    requires i < past + 1 + bulk
    ensures var g := GridIndex(sch, now, offset);
            ScheduledSlot(sch, now, i - past - 1, offset) == GridSlot(sch, g - past + i, offset)
  {
    SlotOnGrid(sch, now, i - past - 1, offset);
  }

  /** Two busy ticks in each of the first two intervals after boot: the retries carry over, so the slot of
      the first interval is skipped and that of the second is given up after two failures. */
  lemma {:induction false} RetriesCarryOver(sch: DaySchedule, bulk: nat, offset: int, bootTime: int,
                                            a1: int, a2: int, b1: int, b2: int)
    requires bulk > 0
    requires GridIndex(sch, a1, offset) == GridIndex(sch, a2, offset) == GridIndex(sch, bootTime, offset) + 1
    requires GridIndex(sch, b1, offset) == GridIndex(sch, b2, offset) == GridIndex(sch, bootTime, offset) + 2
    ensures var boot := GridIndex(sch, bootTime, offset);
            var st := Booted(sch, bulk, offset, bootTime);
            var ticks := [Tick(a1, BUSY), Tick(a2, BUSY), Tick(b1, BUSY), Tick(b2, BUSY)];
            var skipped, given := GridSlot(sch, boot + bulk + 1, offset), GridSlot(sch, boot + bulk + 2, offset);
            && RunLog(sch, bulk, offset, st, ticks) ==
                 [Attempt(skipped, BUSY), Attempt(skipped, BUSY), Attempt(given, BUSY), Attempt(given, BUSY)]
            && RunState(sch, bulk, offset, st, ticks) == RunnerState(given, 0, false)
            && !GapFree(RunLog(sch, bulk, offset, st, ticks), sch, boot + bulk + 1, offset)
  {
    hide GridIndex, ScheduledSlot, GridSlot, Transient, Booted, RunState, RunLog, GapFree, Cursor;
    var boot, first := GridIndex(sch, bootTime, offset), GridIndex(sch, bootTime, offset) + bulk + 1;
    var st := Booted(sch, bulk, offset, bootTime);
    BootedAtEdge(sch, bulk, offset, bootTime);
    BusyIsTransient();
    SlotOnGrid(sch, a1, bulk - 1, offset);
    SlotOnGrid(sch, a2, bulk - 1, offset);
    SlotOnGrid(sch, b1, bulk - 1, offset);
    SlotOnGrid(sch, b2, bulk - 1, offset);
    GridSlotOrder(sch, boot + bulk, first, offset);
    GridSlotOrder(sch, first, first + 1, offset);
    var skipped, given := GridSlot(sch, first, offset), GridSlot(sch, first + 1, offset);
    var t1 := [Tick(a1, BUSY)];
    var t2, t3 := t1 + [Tick(a2, BUSY)], t1 + [Tick(a2, BUSY)] + [Tick(b1, BUSY)];
    assert [] + t1 == t1 && t3 + [Tick(b2, BUSY)] == [Tick(a1, BUSY), Tick(a2, BUSY), Tick(b1, BUSY), Tick(b2, BUSY)];
    NoLog(sch, bulk, offset, st, first);
    RunNext(sch, bulk, offset, st, [], Tick(a1, BUSY));
    RunNext(sch, bulk, offset, st, t1, Tick(a2, BUSY));
    RunNext(sch, bulk, offset, st, t2, Tick(b1, BUSY));
    RunNext(sch, bulk, offset, st, t3, Tick(b2, BUSY));
    var l1 := [Attempt(skipped, BUSY)];
    var l2, l3 := l1 + l1, l1 + l1 + [Attempt(given, BUSY)];
    assert [] + l1 == l1;
    LogAppend([], Attempt(skipped, BUSY), sch, first, offset);
    LogAppend(l1, Attempt(skipped, BUSY), sch, first, offset);
    LogAppend(l2, Attempt(given, BUSY), sch, first, offset);
    LogAppend(l3, Attempt(given, BUSY), sch, first, offset);
    assert l3 + [Attempt(given, BUSY)] ==
           [Attempt(skipped, BUSY), Attempt(skipped, BUSY), Attempt(given, BUSY), Attempt(given, BUSY)];
  }

  // ---------- what counts as transient ----------

  ghost predicate OccursAt(s: string, needle: string, i: nat) {
    i + |needle| <= |s| && s[i..i + |needle|] == needle
  }

  ghost predicate Occurs(s: string, needle: string) {
    exists i: nat :: OccursAt(s, needle, i)
  }

  lemma {:induction false} ContainsExactlyWhenOccurs(s: string, needle: string)
    ensures Contains(s, needle) <==> Occurs(s, needle)
    decreases |s|
  {
    if needle <= s {
      assert OccursAt(s, needle, 0);
    } else if |s| > 0 {
      ContainsExactlyWhenOccurs(s[1..], needle);
      if Occurs(s[1..], needle) {
        var i: nat :| OccursAt(s[1..], needle, i);
        assert OccursAt(s, needle, i + 1);
      }
      if Occurs(s, needle) {
        var i: nat :| OccursAt(s, needle, i);
        assert i > 0;
        assert OccursAt(s[1..], needle, i - 1);
      }
    }
  }

  /** An attempt is retried exactly for missing permissions, a full or failing device, and four messages. */
  lemma {:induction false} TransientExactlyWhen(o: Outcome)
    ensures Transient(o) <==>
              && o.Failed?
              && (o.error.permission || o.error.noSpace || o.error.io ||
                  Occurs(o.error.message, "database is locked") || Occurs(o.error.message, "SQLITE_BUSY") ||
                  Occurs(o.error.message, "disk is full") || Occurs(o.error.message, "no space left on device"))
  {
    hide Contains, Occurs;
    if o.Failed? {
      ContainsExactlyWhenOccurs(o.error.message, "database is locked");
      ContainsExactlyWhenOccurs(o.error.message, "SQLITE_BUSY");
      ContainsExactlyWhenOccurs(o.error.message, "disk is full");
      ContainsExactlyWhenOccurs(o.error.message, "no space left on device");
    }
  }
}
