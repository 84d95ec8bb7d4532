/** The subscriber channels of internal/feed/poller.go: one sender that drops the oldest event of
    a full buffer, against receivers, unsubscriptions and shutdown in any interleaving. */
module FanOut {
  import opened Basics
  import opened Options

  const CAPACITY: nat := 16

  /** The i-th broadcast carries event i. A channel remembers which events it lost, and during
      which broadcast; `full` holds the broadcasts that found CAPACITY events queued. */
  datatype Channel = Channel(since: nat, received: seq<nat>, buf: seq<nat>, lost: map<nat, nat>, full: set<nat>,
                             until: Option<nat>)

  /** Where the sender is within the three steps for one subscriber. */
  datatype Phase = TryFirst | Drain | TryAgain

  datatype Sender = Idle | Sending(todo: set<nat>, current: Option<(nat, Phase)>)

  /** subs are the registered subscribers; channels outlive their registration. `broken` records a
      close of a closed channel or a send on one. */
  datatype State = State(subs: set<nat>, channels: map<nat, Channel>, nextId: nat, sent: nat, sender: Sender,
                         broken: bool)

  datatype Step =
    | Subscribe
    | Unsubscribe(id: nat)
    | Shutdown
    | Begin
    | Pick(id: nat)
    | Send
    | End
    | Receive(id: nat)

  function Initial(): State {
    State({}, map[], 0, 0, Idle, false)
  }

  // ---------- the steps ----------

  function Closed(c: Channel): bool { c.until.Some? }

  function Push(c: Channel, e: nat): Channel {
    c.(buf := c.buf + [e])
  }

  function Taken(c: Channel): Channel
    requires |c.buf| > 0
  {
    c.(buf := c.buf[1..], received := c.received + [c.buf[0]])
  }

  function Close(c: Channel, now: nat): Channel {
    c.(until := Some(now))
  }

  /** The oldest queued event is taken out and lost to broadcast e. */
  function Drained(c: Channel, e: nat): Channel {
    if |c.buf| == 0 then c else c.(buf := c.buf[1..], lost := c.lost[c.buf[0] := e])
  }

  /** The current send step: try; if full, take the oldest out; try once more. */
  function SendStep(st: State, id: nat, phase: Phase): State
    requires st.sender.Sending? && id in st.channels
  {
    var c := st.channels[id];
    if Closed(c) then st.(broken := true)
    else if phase.Drain? then
      st.(channels := st.channels[id := Drained(c, st.sent)], sender := Sending(st.sender.todo, Some((id, TryAgain))))
    else if |c.buf| < CAPACITY then
      st.(channels := st.channels[id := Push(c, st.sent)], sender := Sending(st.sender.todo, None))
    else if phase.TryFirst? then
      st.(channels := st.channels[id := c.(full := c.full + {st.sent})],
          sender := Sending(st.sender.todo, Some((id, Drain))))
    else st.(sender := Sending(st.sender.todo, None))
  }

  /** The write lock, held by Subscribe, Unsubscribe and Shutdown, excludes a broadcast in
      progress. Steps that cannot happen in a state leave it unchanged. */
  function Next(st: State, step: Step): State {
    match step
    case Subscribe =>
      if !st.sender.Idle? then st else
        var id := st.nextId + 1;
        st.(subs := st.subs + {id}, nextId := id,
            channels := st.channels[id := Channel(st.sent, [], [], map[], {}, None)])
    case Unsubscribe(id) =>
      if !st.sender.Idle? || id !in st.subs || id !in st.channels then st
      else st.(subs := st.subs - {id}, channels := st.channels[id := Close(st.channels[id], st.sent)],
               broken := st.broken || Closed(st.channels[id]))
    case Shutdown =>
      if !st.sender.Idle? then st
      else st.(subs := {},
               channels := map id | id in st.channels ::
                             if id in st.subs then Close(st.channels[id], st.sent) else st.channels[id],
               broken := st.broken || exists id :: id in st.subs && id in st.channels && Closed(st.channels[id]))
    case Begin =>
      if !st.sender.Idle? then st else st.(sent := st.sent + 1, sender := Sending(st.subs, None))
    case Pick(id) =>
      if st.sender.Idle? || st.sender.current.Some? || id !in st.sender.todo then st
      else st.(sender := Sending(st.sender.todo - {id}, Some((id, TryFirst))))
    case Send =>
      if st.sender.Idle? || st.sender.current.None? || st.sender.current.value.0 !in st.channels then st
      else SendStep(st, st.sender.current.value.0, st.sender.current.value.1)
    case End =>
      if st.sender.Idle? || st.sender.current.Some? || st.sender.todo != {} then st else st.(sender := Idle)
    case Receive(id) =>
      if id !in st.channels || |st.channels[id].buf| == 0 then st
      else st.(channels := st.channels[id := Taken(st.channels[id])])
  }

  function Run(steps: seq<Step>): State {
    if |steps| == 0 then Initial() else Next(Run(steps[..|steps| - 1]), steps[|steps| - 1])
  }

  // ---------- the invariant ----------

  /** Received events first, then the queue. */
  function Delivered(c: Channel): seq<nat> {
    c.received + c.buf
  }

  ghost predicate Increasing(s: seq<nat>) {
    forall i, j | 0 <= i < j < |s| :: s[i] < s[j]
  }

  ghost predicate Within(s: seq<nat>, lo: nat, hi: nat) {
    forall i | 0 <= i < |s| :: lo < s[i] <= hi
  }

  /** Every broadcast from lo to hi is delivered or lost, and none is both. */
  ghost predicate Accounted(s: seq<nat>, lost: map<nat, nat>, lo: nat, hi: nat) {
    && (forall e | lo < e <= hi :: e in lost || e in s)
    && (forall e | e in lost :: lo < e <= hi && e !in s)
  }

  /** Losses happen only during broadcasts that found the buffer full, to earlier events, to one event per
      broadcast, and to older events than all that are still queued. */
  ghost predicate FairLosses(c: Channel) {
    && (forall e | e in c.lost :: c.lost[e] in c.full && e < c.lost[e])
    && (forall e, i | e in c.lost && 0 <= i < |c.buf| :: e < c.buf[i])
    && (forall e, f | e in c.lost && f in c.lost && e != f :: c.lost[e] != c.lost[f])
  }

  ghost predicate Newest(s: seq<nat>, lo: nat, hi: nat) {
    hi > lo ==> |s| > 0 && s[|s| - 1] == hi
  }

  /** A channel that broadcasts lo+1 .. hi have gone through. */
  ghost predicate Sound(c: Channel, hi: nat) {
    && c.since <= hi && |c.buf| <= CAPACITY
    && Increasing(Delivered(c)) && Within(Delivered(c), c.since, hi)
    && Accounted(Delivered(c), c.lost, c.since, hi)
    && FairLosses(c)
  }

  /** How many broadcasts have gone through the channel of a subscriber. */
  function Through(st: State, id: nat): nat
    requires id in st.channels
  {
    var c := st.channels[id];
    if c.until.Some? then c.until.value
    else if st.sender.Sending? && (id in st.sender.todo || (st.sender.current.Some? && st.sender.current.value.0 == id))
    then if st.sent > 0 then st.sent - 1 else 0
    else st.sent
  }

  ghost predicate ChannelOk(st: State, id: nat)
    requires id in st.channels
  {
    var c, hi := st.channels[id], Through(st, id);
    var phase := if st.sender.Sending? && st.sender.current.Some? && st.sender.current.value.0 == id && !Closed(c)
                 then Some(st.sender.current.value.1) else None;
    && Sound(c, hi) && (Closed(c) <==> id !in st.subs)
    && (phase != Some(TryAgain) ==> Newest(Delivered(c), c.since, hi))
    && (forall e | e in c.lost :: c.lost[e] <= st.sent)
    && (phase == Some(Drain) || phase == Some(TryAgain) ==> st.sent in c.full)
    && (phase != Some(TryAgain) && hi < st.sent && !Closed(c) ==> forall e | e in c.lost :: c.lost[e] < st.sent)
    && (phase == Some(TryAgain) ==> |c.buf| < CAPACITY)
  }

  ghost predicate SenderOk(st: State) {
    st.sender.Sending? ==>
      && st.sent > 0 && st.sender.todo <= st.subs
      && (st.sender.current.Some? ==>
            st.sender.current.value.0 in st.subs && st.sender.current.value.0 !in st.sender.todo)
      && (forall id | id in st.subs && id in st.channels :: st.channels[id].since < st.sent)
  }

  ghost predicate Inv(st: State) {
    && !st.broken && SenderOk(st)
    && (forall id | id in st.subs :: id in st.channels)
    && (forall id | id in st.channels :: id <= st.nextId && ChannelOk(st, id))
  }

  // ---------- one channel ----------

  lemma {:induction false} PushSound(c: Channel, e: nat)
    requires e > 0 && Sound(c, e - 1) && |c.buf| < CAPACITY
    ensures Sound(Push(c, e), e) && Newest(Delivered(Push(c, e)), c.since, e)
  {
    assert Delivered(Push(c, e)) == Delivered(c) + [e];
    AccountedPush(Delivered(c), c.lost, c.since, e);
  }

  lemma {:induction false} AccountedPush(s: seq<nat>, lost: map<nat, nat>, lo: nat, e: nat)
    requires lo < e && Accounted(s, lost, lo, e - 1)
    ensures Accounted(s + [e], lost, lo, e)
  {
    assert e in s + [e];
    forall x | lo < x <= e ensures x in lost || x in s + [e] {
      if x < e && x !in lost {
        assert x in s;
      }
    }
  }

  lemma {:induction false} DrainSound(c: Channel, e: nat)
    requires e > 0 && Sound(c, e - 1) && e in c.full && forall x | x in c.lost :: c.lost[x] < e
    ensures Sound(Drained(c, e), e - 1) && |Drained(c, e).buf| < CAPACITY
  {
    if |c.buf| > 0 {
      var d, k := Delivered(c), |c.received|;
      assert Delivered(Drained(c, e)) == Without(d, k);
      assert d[k] == c.buf[0];
      RemoveOldest(d, c.lost, c.since, e - 1, k, e);
    }
  }

  lemma {:induction false} RemoveOldest(d: seq<nat>, lost: map<nat, nat>, lo: nat, hi: nat, k: nat, during: nat)
    requires k < |d| && Increasing(d) && Within(d, lo, hi) && Accounted(d, lost, lo, hi)
    ensures Increasing(Without(d, k)) && Within(Without(d, k), lo, hi)
    ensures Accounted(Without(d, k), lost[d[k] := during], lo, hi) && lo < d[k] <= hi
  {
    hide Accounted;
    OneLess(d, k);
    assert forall i | 0 <= i < |d| - 1 :: Without(d, k)[i] == d[if i < k then i else i + 1];
    AccountedLess(d, Without(d, k), lost, lo, hi, d[k], during);
  }

  /** The queue without one event holds all the others, and not that one. */
  lemma {:induction false} OneLess(d: seq<nat>, k: nat)
    requires k < |d| && Increasing(d)
    ensures forall e :: e in Without(d, k) <==> e in d && e != d[k]
  {
    var rest := Without(d, k);
    forall e ensures e in rest <==> e in d && e != d[k] {
      if e in rest {
        var j :| 0 <= j < |rest| && rest[j] == e;
        assert d[if j < k then j else j + 1] == e;
      }
      if e in d && e != d[k] {
        var j :| 0 <= j < |d| && d[j] == e;
        assert rest[if j < k then j else j - 1] == e;
      }
    }
  }

  lemma {:induction false} AccountedLess(d: seq<nat>, rest: seq<nat>, lost: map<nat, nat>, lo: nat, hi: nat, x: nat,
                                         during: nat)
    requires Accounted(d, lost, lo, hi) && lo < x <= hi && forall e :: e in rest <==> e in d && e != x
    ensures Accounted(rest, lost[x := during], lo, hi)
  {
  }

  lemma {:induction false} TakeSound(c: Channel, hi: nat)
    requires |c.buf| > 0 && Sound(c, hi)
    ensures Sound(Taken(c), hi) && Delivered(Taken(c)) == Delivered(c)
  {
    hide Increasing, Within, Accounted;
    assert Delivered(Taken(c)) == Delivered(c);
  }

  // ---------- the steps keep the invariant ----------

  lemma {:induction false} SubscribeKeeps(st: State)
    requires Inv(st) && st.sender.Idle?
    ensures Inv(Next(st, Subscribe))
  {
    hide Sound, Newest;
    var after := Next(st, Subscribe);
    NewChannel(st.sent);
    forall id | id in after.channels ensures id <= after.nextId && ChannelOk(after, id) {
      if id in st.channels {
        assert ChannelOk(st, id) && id != after.nextId;
      }
    }
  }

  lemma {:induction false} NewChannel(now: nat)
    ensures var c := Channel(now, [], [], map[], {}, None);
            Sound(c, now) && Newest(Delivered(c), now, now)
  {
  }

  lemma {:induction false} UnsubscribeKeeps(st: State, id: nat)
    requires Inv(st)
    ensures Inv(Next(st, Unsubscribe(id)))
  {
    hide Newest, Sound, Delivered, Close, Closed;
    var after := Next(st, Unsubscribe(id));
    forall i | i in after.channels ensures i <= after.nextId && ChannelOk(after, i) {
      assert ChannelOk(st, i);
      CloseKeeps(st.channels[i], st.sent, Through(st, i));
    }
  }

  lemma {:induction false} ShutdownKeeps(st: State)
    requires Inv(st)
    ensures Inv(Next(st, Shutdown))
  {
    hide Newest, Sound, Delivered, Close, Closed;
    var after := Next(st, Shutdown);
    forall i | i in after.channels ensures i <= after.nextId && ChannelOk(after, i) {
      assert ChannelOk(st, i);
      CloseKeeps(st.channels[i], st.sent, Through(st, i));
    }
  }

  /** Closing a channel changes nothing in it. */
  lemma {:induction false} CloseKeeps(c: Channel, now: nat, hi: nat)
    ensures var d := Close(c, now);
            && (Sound(d, hi) <==> Sound(c, hi)) && Delivered(d) == Delivered(c)
            && d == c.(until := Some(now)) && Closed(d) && (Closed(c) <==> c.until.Some?)
  {
    hide Increasing, Within, Accounted;
  }

  lemma {:induction false} BeginKeeps(st: State)
    requires Inv(st)
    ensures Inv(Next(st, Begin))
  {
    hide Sound, Newest;
    var after := Next(st, Begin);
    forall i | i in after.channels ensures i <= after.nextId && ChannelOk(after, i) {
      assert ChannelOk(st, i);
    }
    forall i | i in after.subs && i in after.channels && st.sender.Idle? ensures after.channels[i].since < after.sent {
      assert ChannelOk(st, i);
      SinceBelow(st.channels[i], Through(st, i));
    }
  }

  lemma {:induction false} SinceBelow(c: Channel, hi: nat)
    requires Sound(c, hi)
    ensures c.since <= hi
  {
  }

  lemma {:induction false} PickKeeps(st: State, id: nat)
    requires Inv(st)
    ensures Inv(Next(st, Pick(id)))
  {
    hide Sound, Newest;
    var after := Next(st, Pick(id));
    forall i | i in after.channels ensures i <= after.nextId && ChannelOk(after, i) {
      assert ChannelOk(st, i);
    }
  }

  lemma {:induction false} EndKeeps(st: State)
    requires Inv(st)
    ensures Inv(Next(st, End))
  {
    hide Sound, Newest;
    var after := Next(st, End);
    forall i | i in after.channels ensures i <= after.nextId && ChannelOk(after, i) {
      assert ChannelOk(st, i);
    }
  }

  lemma {:induction false} ReceiveKeeps(st: State, id: nat)
    requires Inv(st)
    ensures Inv(Next(st, Receive(id)))
  {
    hide Sound, Delivered, Newest;
    var after := Next(st, Receive(id));
    forall i | i in after.channels ensures i <= after.nextId && ChannelOk(after, i) {
      assert ChannelOk(st, i);
      if i == id && |st.channels[id].buf| > 0 {
        TakeSound(st.channels[id], Through(st, id));
      }
    }
  }

  lemma {:induction false} SendKeeps(st: State)
    requires Inv(st)
    ensures Inv(Next(st, Send))
  {
    hide Newest, Sound;
    var after := Next(st, Send);
    if st.sender.Sending? && st.sender.current.Some? && st.sender.current.value.0 in st.channels {
      var (id, phase) := st.sender.current.value;
      assert ChannelOk(st, id) && id in st.subs;
      SentChannelOk(st, id, phase);
      forall i | i in after.channels ensures i <= after.nextId && ChannelOk(after, i) {
        if i != id {
          assert ChannelOk(st, i);
        }
      }
      forall i | i in after.subs && i in after.channels ensures after.channels[i].since < after.sent {
        assert i in st.channels;
      }
    }
  }

  /** The channel being sent to, after each of the three steps. */
  lemma {:induction false} SentChannelOk(st: State, id: nat, phase: Phase)
    requires Inv(st) && st.sender.Sending? && st.sender.current == Some((id, phase)) && id in st.channels
    ensures !Closed(st.channels[id]) && ChannelOk(SendStep(st, id, phase), id)
    ensures SendStep(st, id, phase).channels[id].since == st.channels[id].since
  {
    hide Sound, Newest, Delivered;
    var c, e := st.channels[id], st.sent;
    assert ChannelOk(st, id) && id in st.subs;
    if phase.Drain? {
      DrainSound(c, e);
    } else if |c.buf| < CAPACITY {
      PushSound(c, e);
      assert Sound(c, e - 1);
      LossesKnown(c, e);
    } else {
      MarkKeeps(c, e);
    }
  }

  lemma {:induction false} LossesKnown(c: Channel, e: nat)
    requires e > 0 && Sound(c, e - 1)
    ensures c.since < e
  {
    hide Increasing, Within, Accounted, FairLosses;
  }

  /** Noting that a broadcast found the buffer full. */
  lemma {:induction false} MarkKeeps(c: Channel, e: nat)
    requires e > 0 && Sound(c, e - 1)
    ensures var d := c.(full := c.full + {e});
            Sound(d, e - 1) && Delivered(d) == Delivered(c)
  {
    hide Increasing, Within, Accounted;
  }

  lemma {:induction false} StepKeeps(st: State, step: Step)
    requires Inv(st)
    ensures Inv(Next(st, step))
  {
    hide Inv;
    match step
    case Subscribe => if st.sender.Idle? { SubscribeKeeps(st); }
    case Unsubscribe(id) => UnsubscribeKeeps(st, id);
    case Shutdown => ShutdownKeeps(st);
    case Begin => BeginKeeps(st);
    case Pick(id) => PickKeeps(st, id);
    case Send => SendKeeps(st);
    case End => EndKeeps(st);
    case Receive(id) => ReceiveKeeps(st, id);
  }

  lemma {:induction false} RunKeeps(steps: seq<Step>)
    ensures Inv(Run(steps))
    decreases |steps|
  {
    hide Next;
    if |steps| > 0 {
      RunKeeps(steps[..|steps| - 1]);
      StepKeeps(Run(steps[..|steps| - 1]), steps[|steps| - 1]);
    }
  }

  // ---------- what every run guarantees ----------

  /** In any interleaving: no channel is closed twice or sent to after its close; what a subscriber
      has received and has queued are broadcasts since its subscription, in order, at most 16 of
      them queued; every broadcast that went through its channel was delivered or lost, never both;
      a loss happens only during a later broadcast that found 16 queued, one per broadcast; and what
      is lost is older than everything still queued. */
  lemma {:induction false} EveryRunIsSafe(steps: seq<Step>, id: nat)
    ensures !Run(steps).broken
    ensures id in Run(steps).channels ==>
              var c, hi := Run(steps).channels[id], Through(Run(steps), id);
              && |c.buf| <= 16 && Increasing(c.received + c.buf) && Within(c.received + c.buf, c.since, hi)
              && Accounted(c.received + c.buf, c.lost, c.since, hi) && FairLosses(c)
              && (forall e, i | e in c.lost && 0 <= i < |c.buf| :: e < c.buf[i])
              && (Closed(c) <==> id !in Run(steps).subs)
  {
    hide Next, Run, Increasing, Within, Accounted;
    RunKeeps(steps);
    assert id in Run(steps).channels ==> ChannelOk(Run(steps), id);
  }

  /** Whenever no broadcast is in progress, every subscriber registered before the latest one has
      received it or has it queued, as the newest event of all. */
  lemma {:induction false} NewestDelivered(steps: seq<Step>, id: nat)
    requires var st := Run(steps); st.sender.Idle? && id in st.subs
    ensures var st := Run(steps);
            && id in st.channels
            && (st.channels[id].since < st.sent ==>
                  var s := st.channels[id].received + st.channels[id].buf;
                  |s| > 0 && s[|s| - 1] == st.sent)
  {
    hide Next, Run, Sound;
    RunKeeps(steps);
    assert ChannelOk(Run(steps), id);
  }

  /** A broadcast to a full queue that nobody reads meanwhile: the oldest event is lost, the new one queued last. */
  lemma {:induction false} FullQueueDropsOldest(st: State, id: nat)
    requires st.sender.Sending? && st.sender.current == Some((id, TryFirst)) && id in st.channels
    requires !Closed(st.channels[id]) && |st.channels[id].buf| == 16
    ensures var after := Next(Next(Next(st, Send), Send), Send);
            var c := st.channels[id];
            var d := c.(buf := c.buf[1..] + [st.sent], lost := c.lost[c.buf[0] := st.sent], full := c.full + {st.sent});
            after == st.(channels := st.channels[id := d], sender := Sending(st.sender.todo, None))
  {
    var c, e := st.channels[id], st.sent;
    var noted := c.(full := c.full + {e});
    var one := st.(channels := st.channels[id := noted], sender := Sending(st.sender.todo, Some((id, Drain))));
    assert Next(st, Send) == one;
    var rest := Drained(noted, e);
    var two := st.(channels := st.channels[id := rest], sender := Sending(st.sender.todo, Some((id, TryAgain))));
    assert one.channels[id := rest] == two.channels;
    assert Next(one, Send) == two;
    assert two.channels[id := Push(rest, e)] == st.channels[id := Push(rest, e)];
  }

  /** Nothing but a send to a queue of sixteen makes a channel note one. */
  lemma {:induction false} NotedOnlyWhenFull(st: State, step: Step, id: nat, e: nat)
    requires id in st.channels && id in Next(st, step).channels
    requires e in Next(st, step).channels[id].full && e !in st.channels[id].full
    ensures e == st.sent && |st.channels[id].buf| >= 16 && step.Send?
  {
  }

  /** A send to a closed channel, and a second close, are noted as a breach, and no step takes a breach back. */
  lemma {:induction false} BreachesAreNoted(st: State, id: nat, step: Step)
    requires id in st.channels && Closed(st.channels[id])
    ensures st.broken ==> Next(st, step).broken
    ensures st.sender.Sending? && st.sender.current.Some? && st.sender.current.value.0 == id ==> Next(st, Send).broken
    ensures st.sender.Idle? && id in st.subs ==> Next(st, Unsubscribe(id)).broken && Next(st, Shutdown).broken
  {
  }

  /** A run goes on step by step. */
  lemma {:induction false} RunGoesOn(steps: seq<Step>, step: Step)
    ensures Run(steps + [step]) == Next(Run(steps), step)
  {
    hide Next;
    assert (steps + [step])[..|steps|] == steps;
  }

  /** One subscriber and one broadcast: it is event 1, queued, and the broadcast is over. */
  lemma {:induction false} FirstBroadcastArrives()
    ensures Run([Subscribe, Begin, Pick(1), Send, End]) ==
            State({1}, map[1 := Channel(0, [], [1], map[], {}, None)], 1, 1, Idle, false)
  {
    hide Run;
    var s1, s2 := [Subscribe], [Subscribe, Begin];
    var s3, s4 := s2 + [Pick(1)], s2 + [Pick(1)] + [Send];
    EmptyRun();
    RunGoesOn([], Subscribe);
    RunGoesOn(s1, Begin);
    RunGoesOn(s2, Pick(1));
    RunGoesOn(s3, Send);
    RunGoesOn(s4, End);
    assert [] + [Subscribe] == s1 && s1 + [Begin] == s2;
    assert s4 + [End] == [Subscribe, Begin, Pick(1), Send, End];
    assert {1} - {1} == {} && {} + {1} == {1};
    assert [] + [1] == [1];
  }

  lemma {:induction false} EmptyRun()
    ensures Run([]) == Initial()
  {
  }

  /** In a run whose subscriber has 16 events queued, the broadcast that comes next loses the oldest. */
  lemma {:induction false} SeventeenthLosesFirst(steps: seq<Step>, id: nat)
    requires Run(steps).sender.Idle? && Run(steps).subs == {id} && id in Run(steps).channels
    requires |Run(steps).channels[id].buf| == 16
    ensures var after := Run(steps + [Begin, Pick(id), Send, Send, Send, End]);
            var c, sent := Run(steps).channels[id], Run(steps).sent;
            && id in after.channels && after.sender.Idle? && after.sent == sent + 1
            && after.channels[id] ==
                 c.(buf := c.buf[1..] + [sent + 1], lost := c.lost[c.buf[0] := sent + 1], full := c.full + {sent + 1})
  {
    hide Next, Run, Inv;
    RunKeeps(steps);
    OpenWhileSubscribed(Run(steps), id);
    var st, a := Run(steps), Next(Run(steps), Begin);
    var b := Next(a, Pick(id));
    BeginAndPick(st, id);
    FullQueueDropsOldest(b, id);
    var c := Next(Next(Next(b, Send), Send), Send);
    LastServed(c);
    SixSteps(steps, id);
  }

  lemma {:induction false} OpenWhileSubscribed(st: State, id: nat)
    requires Inv(st) && id in st.subs
    ensures id in st.channels && !Closed(st.channels[id])
  {
    assert ChannelOk(st, id);
  }

  lemma {:induction false} BeginAndPick(st: State, id: nat)
    requires st.sender.Idle? && st.subs == {id} && id in st.channels
    ensures Next(Next(st, Begin), Pick(id)) == st.(sent := st.sent + 1, sender := Sending({}, Some((id, TryFirst))))
  {
    assert {id} - {id} == {};
  }

  lemma {:induction false} LastServed(st: State)
    requires st.sender == Sending({}, None)
    ensures Next(st, End) == st.(sender := Idle)
  {
  }

  lemma {:induction false} SixSteps(steps: seq<Step>, id: nat)
    ensures Run(steps + [Begin, Pick(id), Send, Send, Send, End]) ==
            Next(Next(Next(Next(Next(Next(Run(steps), Begin), Pick(id)), Send), Send), Send), End)
  {
    hide Next, Run;
    var s1 := steps + [Begin];
    var s2 := s1 + [Pick(id)];
    var s3 := s2 + [Send];
    var s4 := s3 + [Send];
    var s5 := s4 + [Send];
    RunGoesOn(steps, Begin);
    RunGoesOn(s1, Pick(id));
    RunGoesOn(s2, Send);
    RunGoesOn(s3, Send);
    RunGoesOn(s4, Send);
    RunGoesOn(s5, End);
    assert s5 + [End] == steps + [Begin, Pick(id), Send, Send, Send, End];
  }
}
