/** Dispatchers drain a channel: each takes messages of its group and handles a bounded number at a time. */
module Dispatcher {
  import opened Channel
  import ChannelGuarantees
  import opened Wrappers

  datatype Reason = SawClosed | Cancelled

  /** `Top` is the head of the loop, `Selecting` the wait for a message or cancellation. */
  datatype Phase = Top | Selecting | Draining(reason: Reason) | Ended(reason: Reason)

  /** `running` are handler calls in progress, `finished` tasks that have ended but are not yet joined. */
  datatype Worker = Worker(group: Group, concurrency: nat, phase: Phase,
                           running: seq<Item>, finished: nat, acked: seq<Item>, nacked: seq<Item>)

  datatype World = World(channel: State, workers: seq<Worker>)

  datatype Event =
    | Elsewhere(step: Step)
    | Spawn(group: Group, concurrency: nat)
    | HasCapacity(d: nat)
    | Join(d: nat)
    | Receive(d: nat)
    | NoMessage(d: nat)
    | Closed(d: nat)
    | Cancel(d: nat)
    | Finish(d: nat, index: nat, ok: bool)
    | DrainOne(d: nat)
    | Stop(d: nat)

  /** Tasks the dispatcher holds. */
  function InFlight(w: Worker): nat {
    |w.running| + w.finished
  }

  predicate Can(cfg: Config, w: World, e: Event) {
    match e
    case Elsewhere(step) => !step.Take? && Enabled(cfg, w.channel, step)
    case Spawn(_, _) => true
    case HasCapacity(d) => d < |w.workers| && w.workers[d].phase.Top?
        && (InFlight(w.workers[d]) < w.workers[d].concurrency || InFlight(w.workers[d]) == 0)
    case Join(d) => d < |w.workers| && w.workers[d].phase.Top? && InFlight(w.workers[d]) >= w.workers[d].concurrency
        && w.workers[d].finished > 0
    case Receive(d) => d < |w.workers| && w.workers[d].phase.Selecting?
        && Enabled(cfg, w.channel, Take(w.workers[d].group, d))
    case NoMessage(d) => d < |w.workers| && w.workers[d].phase.Selecting?
    case Closed(d) => d < |w.workers| && w.workers[d].phase.Selecting?
        && ChannelGuarantees.SeesClosed(w.channel, w.workers[d].group)
    case Cancel(d) => d < |w.workers| && w.workers[d].phase.Selecting?
    case Finish(d, i, _) => d < |w.workers| && i < |w.workers[d].running|
    case DrainOne(d) => d < |w.workers| && w.workers[d].phase.Draining? && w.workers[d].finished > 0
    case Stop(d) => d < |w.workers| && w.workers[d].phase.Draining? && InFlight(w.workers[d]) == 0
  }

  function Finished(w: Worker, i: nat, ok: bool): Worker
    requires i < |w.running|
  {
    w.(running := w.running[..i] + w.running[i + 1..],
       finished := w.finished + 1,
       acked := if ok then w.acked + [w.running[i]] else w.acked,
       nacked := if ok then w.nacked else w.nacked + [w.running[i]])
  }

  function Happen(cfg: Config, w: World, e: Event): World
    requires Can(cfg, w, e)
  {
    match e
    case Elsewhere(step) => w.(channel := Apply(cfg, w.channel, step))
    case Spawn(g, n) => w.(workers := w.workers + [Worker(g, n, Top, [], 0, [], [])])
    case HasCapacity(d) => w.(workers := w.workers[d := w.workers[d].(phase := Selecting)])
    case Join(d) => w.(workers := w.workers[d :=
                                            w.workers[d].(finished := w.workers[d].finished - 1, phase := Selecting)])
    case Receive(d) =>
      var taker := w.workers[d];
      var item := w.channel.queues[w.channel.receivers[taker.group]].buffer[0];
      World(Apply(cfg, w.channel, Take(taker.group, d)),
            w.workers[d := taker.(running := taker.running + [item], phase := Top)])
    case NoMessage(d) => w.(workers := w.workers[d := w.workers[d].(phase := Top)])
    case Closed(d) => w.(workers := w.workers[d := w.workers[d].(phase := Draining(SawClosed))])
    case Cancel(d) => w.(workers := w.workers[d := w.workers[d].(phase := Draining(Cancelled))])
    case Finish(d, i, ok) => w.(workers := w.workers[d := Finished(w.workers[d], i, ok)])
    case DrainOne(d) => w.(workers := w.workers[d := w.workers[d].(finished := w.workers[d].finished - 1)])
    case Stop(d) => w.(workers := w.workers[d := w.workers[d].(phase := Ended(w.workers[d].phase.reason))])
  }

  predicate CanAll(cfg: Config, w: World, events: seq<Event>)
    decreases |events|
  {
    events != [] ==> Can(cfg, w, events[0]) && CanAll(cfg, Happen(cfg, w, events[0]), events[1..])
  }

  function HappenAll(cfg: Config, w: World, events: seq<Event>): World
    requires CanAll(cfg, w, events)
    decreases |events|
  {
    if events == [] then w else HappenAll(cfg, Happen(cfg, w, events[0]), events[1..])
  }

  // ---- Conservation -----------------------------------------------------------------------------------------

  /** What a worker has taken and still runs, has acknowledged, or has refused. */
  function Hands(w: Worker): multiset<Item> {
    multiset(w.running) + multiset(w.acked) + multiset(w.nacked)
  }

  /** The same for all workers of a group. */
  function AllHands(workers: seq<Worker>, g: Group): multiset<Item> {
    if workers == [] then multiset{} else
      AllHands(workers[..|workers| - 1], g)
      + if workers[|workers| - 1].group == g then Hands(workers[|workers| - 1]) else multiset{}
  }

  lemma {:induction false} AllHandsUpdate(workers: seq<Worker>, d: nat, w: Worker, g: Group)
    requires d < |workers| && w.group == workers[d].group && Hands(workers[d]) <= Hands(w)
    ensures AllHands(workers[d := w], g) ==
            AllHands(workers, g) + if w.group == g then Hands(w) - Hands(workers[d]) else multiset{}
  {
    hide Hands;
    var last := |workers| - 1;
    if d == last {
      assert workers[d := w][..last] == workers[..last];
    } else {
      AllHandsUpdate(workers[..last], d, w, g);
      assert workers[d := w][..last] == workers[..last][d := w];
    }
  }

  /** What has been consumed from a group's queue. */
  function Consumed(s: State, g: Group): multiset<Item> {
    if g in s.receivers && s.receivers[g] < |s.queues|
        && |s.queues[s.receivers[g]].consumed| <= |s.queues[s.receivers[g]].accepted|
    then multiset(s.queues[s.receivers[g]].accepted[..|s.queues[s.receivers[g]].consumed|])
    else multiset{}
  }

  predicate Bounded(w: Worker) {
    var limit := if w.concurrency == 0 then 1 else w.concurrency;
    && InFlight(w) <= limit
    && (w.phase.Selecting? ==> InFlight(w) < limit)
    && (w.phase.Ended? ==> InFlight(w) == 0)
  }

  predicate ClosedRightly(s: State, w: Worker) {
    w.phase == Draining(SawClosed) || w.phase == Ended(SawClosed) ==> ChannelGuarantees.SeesClosed(s, w.group)
  }

  ghost predicate Sound(cfg: Config, w: World) {
    && Inv(cfg, w.channel)
    && (forall d :: 0 <= d < |w.workers| ==> Bounded(w.workers[d]) && ClosedRightly(w.channel, w.workers[d]))
    && (forall g :: Consumed(w.channel, g) == AllHands(w.workers, g))
  }

  /** A channel step other than a receive consumes nothing. */
  lemma ConsumesNothing(cfg: Config, s: State, step: Step, g: Group)
    requires Inv(cfg, s) && Enabled(cfg, s, step) && !step.Take?
    ensures Consumed(Apply(cfg, s, step), g) == Consumed(s, g)
  {
    hide Sourced, InOrder, CallFits, Delivered, OneAtATime;
    var t := Apply(cfg, s, step);
    if g in s.receivers {
      var q := s.receivers[g];
      assert Flowing(cfg, s.queues[q]);
      var n := |s.queues[q].consumed|;
      assert t.queues[q].accepted[..n] == s.queues[q].accepted[..n];
    }
  }

  /** A receive consumes the item at the head of the group's queue. */
  lemma ConsumesHead(cfg: Config, s: State, g: Group, taker: nat, h: Group)
    requires Inv(cfg, s) && Enabled(cfg, s, Take(g, taker))
    ensures Consumed(Apply(cfg, s, Take(g, taker)), h) ==
            Consumed(s, h) + if h == g then multiset{s.queues[s.receivers[g]].buffer[0]} else multiset{}
  {
    hide Sourced, InOrder, CallFits, Delivered, OneAtATime;
    if h == g {
      var q := s.queues[s.receivers[g]];
      assert Flowing(cfg, q);
      var n := |q.consumed|;
      assert q.accepted[..n + 1] == q.accepted[..n] + [q.buffer[0]];
    }
  }

  /** Ending a handler call moves its message, and nothing else. */
  lemma FinishKeepsHands(w: Worker, i: nat, ok: bool)
    requires i < |w.running|
    ensures Hands(Finished(w, i, ok)) == Hands(w)
  {
    assert w.running == w.running[..i] + [w.running[i]] + w.running[i + 1..];
  }

  lemma ReceiveConserves(cfg: Config, w: World, d: nat, g: Group)
    requires Sound(cfg, w) && Can(cfg, w, Receive(d))
    ensures Consumed(Happen(cfg, w, Receive(d)).channel, g) == AllHands(Happen(cfg, w, Receive(d)).workers, g)
  {
    hide Apply, Inv, Consumed, Bounded, ClosedRightly, AllHands, ChannelGuarantees.SeesClosed;
    var v := Happen(cfg, w, Receive(d));
    var item := w.channel.queues[w.channel.receivers[w.workers[d].group]].buffer[0];
    assert Hands(v.workers[d]) == Hands(w.workers[d]) + multiset{item};
    ConsumesHead(cfg, w.channel, w.workers[d].group, d, g);
    AllHandsUpdate(w.workers, d, v.workers[d], g);
  }

  /** Events that leave the channel alone keep what the worker they concern has in hand. */
  lemma WorkerConserves(cfg: Config, w: World, e: Event, g: Group)
    requires Can(cfg, w, e) && !e.Elsewhere? && !e.Spawn? && !e.Receive?
    ensures Happen(cfg, w, e).channel == w.channel
    ensures AllHands(Happen(cfg, w, e).workers, g) == AllHands(w.workers, g)
  {
    hide Enabled, AllHands, ChannelGuarantees.SeesClosed;
    var v := Happen(cfg, w, e);
    if e.Finish? {
      FinishKeepsHands(w.workers[e.d], e.index, e.ok);
    }
    assert Hands(v.workers[e.d]) == Hands(w.workers[e.d]);
    hide Hands, Happen;
    AllHandsUpdate(w.workers, e.d, v.workers[e.d], g);
  }

  lemma EventConserves(cfg: Config, w: World, e: Event, g: Group)
    requires Sound(cfg, w) && Can(cfg, w, e)
    ensures Consumed(Happen(cfg, w, e).channel, g) == AllHands(Happen(cfg, w, e).workers, g)
  {
    hide Apply, Enabled, Inv, Consumed, Bounded, ClosedRightly, ChannelGuarantees.SeesClosed;
    if e.Receive? {
      ReceiveConserves(cfg, w, e.d, g);
    } else if e.Elsewhere? {
      hide AllHands;
      ConsumesNothing(cfg, w.channel, e.step, g);
    } else if e.Spawn? {
      assert Happen(cfg, w, e).workers[..|w.workers|] == w.workers;
    } else {
      hide AllHands, Can;
      WorkerConserves(cfg, w, e, g);
    }
  }

  lemma EventKeepsWorkers(cfg: Config, w: World, e: Event, d: nat)
    requires Sound(cfg, w) && Can(cfg, w, e) && d < |Happen(cfg, w, e).workers|
    ensures Bounded(Happen(cfg, w, e).workers[d])
              && ClosedRightly(Happen(cfg, w, e).channel, Happen(cfg, w, e).workers[d])
  {
    hide Apply, Enabled, Inv, Consumed, AllHands, ChannelGuarantees.SeesClosed;
    if d < |w.workers| {
      assert Bounded(w.workers[d]) && ClosedRightly(w.channel, w.workers[d]);
      if e.Elsewhere? && ChannelGuarantees.SeesClosed(w.channel, w.workers[d].group) {
        ChannelGuarantees.StepAfterClosed(cfg, w.channel, e.step, w.workers[d].group);
      }
      if e.Receive? && ChannelGuarantees.SeesClosed(w.channel, w.workers[d].group) {
        ChannelGuarantees.StepAfterClosed(cfg, w.channel, Take(w.workers[e.d].group, e.d), w.workers[d].group);
      }
    }
  }

  lemma EventKeeps(cfg: Config, w: World, e: Event)
    requires Sound(cfg, w) && Can(cfg, w, e)
    ensures Sound(cfg, Happen(cfg, w, e))
  {
    var v := Happen(cfg, w, e);
    assert Inv(cfg, v.channel) by {
      hide Inv, Apply, Enabled;
      if e.Elsewhere? {
        StepKeeps(cfg, w.channel, e.step);
      } else if e.Receive? {
        StepKeeps(cfg, w.channel, Take(w.workers[e.d].group, e.d));
      }
    }
    hide Inv, Happen, Can, Bounded, ClosedRightly, Consumed, AllHands;
    forall d | 0 <= d < |v.workers|
      ensures Bounded(v.workers[d]) && ClosedRightly(v.channel, v.workers[d])
    {
      EventKeepsWorkers(cfg, w, e, d);
    }
    forall g: Group
      ensures Consumed(v.channel, g) == AllHands(v.workers, g)
    {
      EventConserves(cfg, w, e, g);
    }
  }

  lemma {:induction false} HistoryKeeps(cfg: Config, w: World, events: seq<Event>)
    requires Sound(cfg, w) && CanAll(cfg, w, events)
    ensures Sound(cfg, HappenAll(cfg, w, events))
    decreases |events|
  {
    hide Sound, Happen, Can;
    if events == [] {
    } else {
      EventKeeps(cfg, w, events[0]);
      HistoryKeeps(cfg, Happen(cfg, w, events[0]), events[1..]);
    }
  }

  const START := World(EMPTY, [])

  lemma StartSound(cfg: Config)
    ensures Sound(cfg, START)
  {
  }

  /**
   * In-flight work never exceeds the concurrency, and every accepted message is queued, in flight, acknowledged or
   * refused.
   */
  lemma Conserved(cfg: Config, events: seq<Event>, g: Group, d: nat)
    requires CanAll(cfg, START, events)
    requires var w := HappenAll(cfg, START, events); g in w.channel.receivers && d < |w.workers|
    ensures var w := HappenAll(cfg, START, events);
            && InFlight(w.workers[d]) <= (if w.workers[d].concurrency == 0 then 1 else w.workers[d].concurrency)
            && w.channel.receivers[g] < |w.channel.queues|
            && var q := w.channel.queues[w.channel.receivers[g]];
            multiset(q.accepted) == multiset(q.buffer) + AllHands(w.workers, g)
  {
    StartSound(cfg);
    HistoryKeeps(cfg, START, events);
    var w := HappenAll(cfg, START, events);
    ConservedNow(cfg, w, g);
    assert Bounded(w.workers[d]);
  }

  lemma ConservedNow(cfg: Config, w: World, g: Group)
    requires Sound(cfg, w) && g in w.channel.receivers
    ensures w.channel.receivers[g] < |w.channel.queues|
    ensures var q := w.channel.queues[w.channel.receivers[g]];
            multiset(q.accepted) == multiset(q.buffer) + AllHands(w.workers, g)
  {
    hide AllHands, Sourced, InOrder, Bounded, ClosedRightly, CallFits, Delivered;
    var q := w.channel.queues[w.channel.receivers[g]];
    assert Flowing(cfg, q);
    assert q.accepted == q.accepted[..|q.consumed|] + q.buffer;
  }

  // ---- The end of a run -------------------------------------------------------------------------------------

  /** What a worker has acknowledged, or refused. */
  function Verdict(w: Worker, ok: bool): multiset<Item> {
    multiset(if ok then w.acked else w.nacked)
  }

  /** The same for all workers of a group. */
  function Verdicts(workers: seq<Worker>, g: Group, ok: bool): multiset<Item> {
    if workers == [] then multiset{} else
      Verdicts(workers[..|workers| - 1], g, ok)
      + if workers[|workers| - 1].group == g then Verdict(workers[|workers| - 1], ok) else multiset{}
  }

  lemma {:induction false} IdleHands(workers: seq<Worker>, g: Group)
    requires forall d :: 0 <= d < |workers| && workers[d].group == g ==> workers[d].running == []
    ensures AllHands(workers, g) == Verdicts(workers, g, true) + Verdicts(workers, g, false)
  {
    if workers != [] {
      IdleHands(workers[..|workers| - 1], g);
    }
  }

  /** The item whose handler call an event ends for a group's worker with this outcome. */
  function EndsCall(cfg: Config, w: World, e: Event, g: Group, ok: bool): multiset<Item>
    requires Can(cfg, w, e)
  {
    if e.Finish? && e.ok == ok && w.workers[e.d].group == g then multiset{w.workers[e.d].running[e.index]}
    else multiset{}
  }

  /** The items whose handler calls end with this outcome in the course of a history. */
  function Outcomes(cfg: Config, w: World, events: seq<Event>, g: Group, ok: bool): multiset<Item>
    requires CanAll(cfg, w, events)
    decreases |events|
  {
    if events == [] then multiset{} else
      EndsCall(cfg, w, events[0], g, ok) + Outcomes(cfg, Happen(cfg, w, events[0]), events[1..], g, ok)
  }

  lemma {:induction false} VerdictsUpdate(workers: seq<Worker>, d: nat, w: Worker, g: Group, ok: bool,
                                          more: multiset<Item>)
    requires d < |workers| && w.group == workers[d].group && Verdict(w, ok) == Verdict(workers[d], ok) + more
    ensures Verdicts(workers[d := w], g, ok) == Verdicts(workers, g, ok) + if w.group == g then more else multiset{}
  {
    hide Verdict;
    var last := |workers| - 1;
    if d == last {
      assert workers[d := w][..last] == workers[..last];
    } else {
      VerdictsUpdate(workers[..last], d, w, g, ok, more);
      assert workers[d := w][..last] == workers[..last][d := w];
    }
  }

  lemma EventVerdict(cfg: Config, w: World, e: Event, g: Group, ok: bool)
    requires Can(cfg, w, e)
    ensures Verdicts(Happen(cfg, w, e).workers, g, ok) == Verdicts(w.workers, g, ok) + EndsCall(cfg, w, e, g, ok)
  {
    hide Apply, Enabled, ChannelGuarantees.SeesClosed;
    var v := Happen(cfg, w, e);
    if e.Spawn? {
      assert v.workers[..|w.workers|] == w.workers;
    } else if !e.Elsewhere? {
      hide Verdicts;
      var more := if e.Finish? && e.ok == ok then multiset{w.workers[e.d].running[e.index]} else multiset{};
      VerdictsUpdate(w.workers, e.d, v.workers[e.d], g, ok, more);
    }
  }

  /** A message is acknowledged when its handler succeeds and refused when it fails, in every history. */
  lemma {:induction false} VerdictsFollow(cfg: Config, w: World, events: seq<Event>, g: Group, ok: bool)
    requires CanAll(cfg, w, events)
    ensures Verdicts(HappenAll(cfg, w, events).workers, g, ok) ==
            Verdicts(w.workers, g, ok) + Outcomes(cfg, w, events, g, ok)
    decreases |events|
  {
    hide Can, Happen, Verdicts, EndsCall;
    if events != [] {
      EventVerdict(cfg, w, events[0], g, ok);
      VerdictsFollow(cfg, Happen(cfg, w, events[0]), events[1..], g, ok);
    }
  }

  /** From the start, what a group's workers have acknowledged are the calls that succeeded, and likewise refused. */
  lemma VerdictsRight(cfg: Config, events: seq<Event>, g: Group)
    requires CanAll(cfg, START, events)
    ensures var workers := HappenAll(cfg, START, events).workers;
            && Verdicts(workers, g, true) == Outcomes(cfg, START, events, g, true)
            && Verdicts(workers, g, false) == Outcomes(cfg, START, events, g, false)
  {
    VerdictsFollow(cfg, START, events, g, true);
    VerdictsFollow(cfg, START, events, g, false);
  }

  /**
   * Once every dispatcher of a group has ended, one of them because it saw the channel closed, each message the
   * group ever accepted has had one handler call: it is acknowledged once and never refused if that succeeded, and
   * refused once and never acknowledged if it failed. Nothing else is acknowledged or refused.
   */
  lemma DrainedExactlyOnce(cfg: Config, events: seq<Event>, g: Group, d: nat, item: Item)
    requires CanAll(cfg, START, events)
    requires var w := HappenAll(cfg, START, events);
             && d < |w.workers| && w.workers[d].group == g && w.workers[d].phase == Ended(SawClosed)
             && forall e :: 0 <= e < |w.workers| && w.workers[e].group == g ==> w.workers[e].phase.Ended?
    ensures var w := HappenAll(cfg, START, events);
            && g in w.channel.receivers && w.channel.receivers[g] < |w.channel.queues|
            && var q := w.channel.queues[w.channel.receivers[g]];
            var succeeded := item in Outcomes(cfg, START, events, g, true);
            var failed := item in Outcomes(cfg, START, events, g, false);
            && q.buffer == []
            && (item in q.accepted <==> succeeded || failed) && !(succeeded && failed)
            && Verdicts(w.workers, g, true)[item] == (if succeeded then 1 else 0)
            && Verdicts(w.workers, g, false)[item] == (if failed then 1 else 0)
  {
    StartSound(cfg);
    HistoryKeeps(cfg, START, events);
    var w := HappenAll(cfg, START, events);
    assert ClosedRightly(w.channel, w.workers[d]);
    var q := w.channel.queues[w.channel.receivers[g]];
    assert Sourced(w.channel, w.channel.receivers[g]);
    ConservedNow(cfg, w, g);
    forall e | 0 <= e < |w.workers| && w.workers[e].group == g
      ensures w.workers[e].running == []
    {
      assert Bounded(w.workers[e]);
    }
    IdleHands(w.workers, g);
    OnceInDistinct(q.accepted, item);
    VerdictsRight(cfg, events, g);
  }

  lemma {:induction false} OnceInDistinct(acc: seq<Item>, item: Item)
    requires forall i, j :: 0 <= i < j < |acc| ==> acc[i].call != acc[j].call
    ensures multiset(acc)[item] == if item in acc then 1 else 0
  {
    if acc != [] {
      var front := acc[..|acc| - 1];
      OnceInDistinct(front, item);
      assert acc == front + [acc[|acc| - 1]];
    }
  }

  // ---- The dispatch loop itself ----------------------------------------------------------------------------------

  /** What everyone else does before a worker's next turn, and what its timer and its token say by then. */
  datatype Turn = Turn(meanwhile: seq<Event>, expired: bool, cancelled: bool)

  /** Where in a history a worker's turn comes, and whether the event there is its move. */
  datatype Mark = Mark(at: nat, moved: bool)

  /** Events in which worker `d`'s own loop moves. */
  predicate Drives(e: Event, d: nat) {
    !e.Elsewhere? && !e.Spawn? && !e.Finish? && e.d == d
  }

  lemma {:induction false} Appended(cfg: Config, w: World, events: seq<Event>, e: Event)
    requires CanAll(cfg, w, events) && Can(cfg, HappenAll(cfg, w, events), e)
    ensures CanAll(cfg, w, events + [e])
    ensures HappenAll(cfg, w, events + [e]) == Happen(cfg, HappenAll(cfg, w, events), e)
    decreases |events|
  {
    hide Can, Happen;
    if events == [] {
      assert events + [e] == [e];
    } else {
      Appended(cfg, Happen(cfg, w, events[0]), events[1..], e);
      assert (events + [e])[1..] == events[1..] + [e];
    }
  }

  /** Other events leave a worker where its loop is. */
  lemma OthersLeave(cfg: Config, w: World, e: Event, d: nat)
    requires Can(cfg, w, e) && d < |w.workers| && !Drives(e, d)
    ensures var v := Happen(cfg, w, e).workers;
            && d < |v| && v[d].phase == w.workers[d].phase && v[d].group == w.workers[d].group
            && v[d].concurrency == w.workers[d].concurrency
  {
    hide Apply, Enabled, ChannelGuarantees.SeesClosed;
  }

  /** Nothing is left for a worker's loop to do at its turn but to wait. */
  predicate Waits(cfg: Config, w: World, t: Turn, d: nat)
    requires d < |w.workers|
  {
    var me := w.workers[d];
    match me.phase
    case Top => InFlight(me) >= me.concurrency && me.finished == 0 && me.running != []
    case Selecting =>
      && !Enabled(cfg, w.channel, Take(me.group, d)) && !ChannelGuarantees.SeesClosed(w.channel, me.group)
      && !t.expired && !t.cancelled
    case Draining(_) => me.finished == 0 && me.running != []
    case Ended(_) => true
  }

  /** A move of the loop: a queued message comes first, then the channel's end, the timer and the token. */
  predicate FirstChoice(cfg: Config, w: World, t: Turn, d: nat, e: Event)
    requires d < |w.workers|
  {
    var me := w.workers[d];
    && Can(cfg, w, e) && Drives(e, d)
    && (me.phase.Selecting? && Enabled(cfg, w.channel, Take(me.group, d)) ==> e.Receive?)
    && (me.phase.Selecting? && ChannelGuarantees.SeesClosed(w.channel, me.group) ==> e.Closed?)
    && (e.NoMessage? ==> t.expired)
    && (e.Cancel? ==> t.cancelled && !t.expired)
  }

  /** What a worker's loop does at its turn. */
  ghost predicate TurnTaken(cfg: Config, start: World, events: seq<Event>, m: Mark, t: Turn, d: nat)
    requires CanAll(cfg, start, events)
  {
    && m.at <= |events| && CanAll(cfg, start, events[..m.at])
    && var w := HappenAll(cfg, start, events[..m.at]);
    && d < |w.workers|
    && (m.moved <==> !Waits(cfg, w, t, d))
    && (m.moved ==> m.at < |events| && FirstChoice(cfg, w, t, d, events[m.at]))
  }

  /** Each turn is taken, in order, and the loop moves at its turns only. */
  ghost predicate TurnsTaken(cfg: Config, start: World, events: seq<Event>, marks: seq<Mark>, turns: seq<Turn>, d: nat)
    requires CanAll(cfg, start, events)
  {
    && |marks| <= |turns|
    && (forall i :: 0 <= i < |marks| ==> TurnTaken(cfg, start, events, marks[i], turns[i], d))
    && (forall i, j :: 0 <= i < j < |marks| && marks[i].moved ==> marks[i].at < marks[j].at)
    && (forall k :: 0 <= k < |events| && Drives(events[k], d) ==> Mark(k, true) in marks)
  }

  /** Later events do not change what was done at a turn. */
  lemma TurnStays(cfg: Config, start: World, events: seq<Event>, more: seq<Event>, m: Mark, t: Turn, d: nat)
    requires CanAll(cfg, start, events) && CanAll(cfg, start, more) && events <= more
    requires TurnTaken(cfg, start, events, m, t, d)
    ensures TurnTaken(cfg, start, more, m, t, d)
  {
    hide CanAll, HappenAll, Waits, FirstChoice;
    assert more[..m.at] == events[..m.at];
  }

  lemma TurnsStay(cfg: Config, start: World, events: seq<Event>, more: seq<Event>, marks: seq<Mark>, turns: seq<Turn>,
                  d: nat)
    requires CanAll(cfg, start, events) && CanAll(cfg, start, more) && events <= more
    requires TurnsTaken(cfg, start, events, marks, turns, d)
    requires forall k :: |events| <= k < |more| ==> !Drives(more[k], d)
    ensures TurnsTaken(cfg, start, more, marks, turns, d)
  {
    hide CanAll, HappenAll, TurnTaken, Drives;
    forall i | 0 <= i < |marks|
      ensures TurnTaken(cfg, start, more, marks[i], turns[i], d)
    {
      TurnStays(cfg, start, events, more, marks[i], turns[i], d);
    }
    forall k | 0 <= k < |more| && Drives(more[k], d)
      ensures Mark(k, true) in marks
    {
      assert k < |events| && events[k] == more[k];
    }
  }

  /** One more turn, at which the loop waits or moves. */
  lemma OneMoreTurn(cfg: Config, start: World, events: seq<Event>, marks: seq<Mark>, turns: seq<Turn>, d: nat,
                    next: Option<Event>)
    requires CanAll(cfg, start, events) && TurnsTaken(cfg, start, events, marks, turns, d) && |marks| < |turns|
    requires var w := HappenAll(cfg, start, events);
             && d < |w.workers|
             && (next.Some? <==> !Waits(cfg, w, turns[|marks|], d))
             && (next.Some? ==> FirstChoice(cfg, w, turns[|marks|], d, next.value))
    ensures var more := if next.Some? then events + [next.value] else events;
            && CanAll(cfg, start, more)
            && HappenAll(cfg, start, more) == (if next.Some? then Happen(cfg, HappenAll(cfg, start, events), next.value)
                                               else HappenAll(cfg, start, events))
            && TurnsTaken(cfg, start, more, marks + [Mark(|events|, next.Some?)], turns, d)
  {
    hide CanAll, HappenAll, Waits, FirstChoice, Happen, Can, Drives;
    var w := HappenAll(cfg, start, events);
    var m := Mark(|events|, next.Some?);
    var more := if next.Some? then events + [next.value] else events;
    if next.Some? {
      FirstCan(cfg, w, turns[|marks|], d, next.value);
      Appended(cfg, start, events, next.value);
    }
    assert more[..|events|] == events;
    assert TurnTaken(cfg, start, more, m, turns[|marks|], d);
    forall i | 0 <= i < |marks|
      ensures TurnTaken(cfg, start, more, marks[i], turns[i], d) && (marks[i].moved ==> marks[i].at < |events|)
    {
      TurnStays(cfg, start, events, more, marks[i], turns[i], d);
    }
    hide TurnTaken;
    forall k | 0 <= k < |more| && Drives(more[k], d)
      ensures Mark(k, true) in marks + [m]
    {
      if k < |events| {
        assert more[k] == events[k];
      } else {
        assert (marks + [m])[|marks|] == Mark(k, true);
      }
    }
  }

  lemma FirstCan(cfg: Config, w: World, t: Turn, d: nat, e: Event)
    requires d < |w.workers| && FirstChoice(cfg, w, t, d, e)
    ensures Can(cfg, w, e)
  {
  }
  /** Others act; what is not possible when its turn comes does not happen. */
  method Meanwhile(cfg: Config, world: World, others: seq<Event>, ghost start: World, ghost before: seq<Event>, d: nat)
      returns (w: World, ghost events: seq<Event>)
    requires CanAll(cfg, start, before) && world == HappenAll(cfg, start, before) && Sound(cfg, world)
    requires d < |world.workers| && forall e :: e in others ==> !Drives(e, d)
    ensures CanAll(cfg, start, events) && w == HappenAll(cfg, start, events) && Sound(cfg, w)
    ensures before <= events && forall k :: |before| <= k < |events| ==> !Drives(events[k], d)
    ensures d < |w.workers| && w.workers[d].phase == world.workers[d].phase
              && w.workers[d].group == world.workers[d].group
    ensures w.workers[d].concurrency == world.workers[d].concurrency
  {
    w, events := world, before;
    for i := 0 to |others|
      invariant CanAll(cfg, start, events) && w == HappenAll(cfg, start, events) && Sound(cfg, w)
      invariant before <= events && forall k :: |before| <= k < |events| ==> !Drives(events[k], d)
      invariant d < |w.workers| && w.workers[d].phase == world.workers[d].phase
                  && w.workers[d].group == world.workers[d].group
      invariant w.workers[d].concurrency == world.workers[d].concurrency
    {
      hide Sound, CanAll, HappenAll, Happen, Can, Drives;
      assert others[i] in others;
      if Can(cfg, w, others[i]) {
        OthersLeave(cfg, w, others[i], d);
        Appended(cfg, start, events, others[i]);
        EventKeeps(cfg, w, others[i]);
        w, events := Happen(cfg, w, others[i]), events + [others[i]];
      }
    }
  }

  /** What the loop does next, if anything. */
  method NextMove(cfg: Config, w: World, turn: Turn, d: nat) returns (next: Option<Event>)
    requires d < |w.workers|
    ensures next.Some? <==> !Waits(cfg, w, turn, d)
    ensures next.Some? ==> FirstChoice(cfg, w, turn, d, next.value)
  {
    var me := w.workers[d];
    next := None;
    if me.phase.Top? {
      if InFlight(me) >= me.concurrency && InFlight(me) > 0 {
        next := if me.finished > 0 then Some(Join(d)) else None;
      } else {
        next := Some(HasCapacity(d));
      }
    } else if me.phase.Selecting? {
      // Biased: the channel is asked before the token.
      if Enabled(cfg, w.channel, Take(me.group, d)) {
        next := Some(Receive(d));
      } else if ChannelGuarantees.SeesClosed(w.channel, me.group) {
        next := Some(Closed(d));
      } else if turn.expired {
        next := Some(NoMessage(d));
      } else if turn.cancelled {
        next := Some(Cancel(d));
      }
    } else if me.phase.Draining? {
      next := if me.finished > 0 then Some(DrainOne(d)) else if InFlight(me) == 0 then Some(Stop(d)) else None;
    }
  }

  /**
   * The loop of one dispatcher: wait for capacity, then take a message, or stop when the channel is closed or
   * the token cancelled, and in the end join what is still running. A schedule that ends early leaves it waiting.
   */
  method RunLoop(cfg: Config, world: World, d: nat, turns: seq<Turn>)
      returns (w: World, ghost events: seq<Event>, ghost marks: seq<Mark>)
    requires Sound(cfg, world) && d < |world.workers| && world.workers[d].phase.Top?
    requires forall t :: t in turns ==> forall e :: e in t.meanwhile ==> !Drives(e, d)
    ensures CanAll(cfg, world, events) && w == HappenAll(cfg, world, events) && Sound(cfg, w)
    ensures |marks| == |turns| && TurnsTaken(cfg, world, events, marks, turns, d)
    ensures d < |w.workers|
    ensures w.workers[d].phase == Ended(SawClosed) ==> ChannelGuarantees.SeesClosed(w.channel, w.workers[d].group)
    ensures w.workers[d].phase.Ended? ==> InFlight(w.workers[d]) == 0
  {
    w, events, marks := world, [], [];
    for i := 0 to |turns|
      invariant CanAll(cfg, world, events) && w == HappenAll(cfg, world, events) && Sound(cfg, w)
      invariant |marks| == i && TurnsTaken(cfg, world, events, marks, turns, d)
      invariant d < |w.workers|
    {
      hide Sound, CanAll, HappenAll, Apply, Enabled, TurnsTaken, Bounded, Waits, FirstChoice, Can;
      assert turns[i] in turns;
      ghost var before := events;
      w, events := Meanwhile(cfg, w, turns[i].meanwhile, world, events, d);
      TurnsStay(cfg, world, before, events, marks, turns, d);
      var next := NextMove(cfg, w, turns[i], d);
      OneMoreTurn(cfg, world, events, marks, turns, d, next);
      marks := marks + [Mark(|events|, next.Some?)];
      if next.Some? {
        FirstCan(cfg, w, turns[i], d, next.value);
        EventKeeps(cfg, w, next.value);
        w, events := Happen(cfg, w, next.value), events + [next.value];
      }
    }
    assert Bounded(w.workers[d]) && ClosedRightly(w.channel, w.workers[d]);
  }
}
