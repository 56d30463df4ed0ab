/**
 * The channel's own code, run by one thread while others interfere. Wherever the code lets go of a lock or
 * waits, an arbitrary schedule of other threads' steps happens.
 */
module LocalChannel {
  import opened Channel
  import opened ChannelGuarantees
  import opened Wrappers

  /** What happens while a thread waits, and whether its timer has run out by then. */
  datatype Wait = Wait(steps: seq<Step>, expired: bool)

  datatype ConsumeError = NoSenders | NoMessage

  /** The steps only the publisher of a call takes. */
  predicate Owns(step: Step, call: nat) {
    match step
    case Send(c) => c == call
    case Return(c) => c == call
    case GiveUp(c, _) => c == call
    case _ => false
  }

  predicate Foreign(steps: seq<Step>, call: nat) {
    forall step :: step in steps ==> !Owns(step, call)
  }

  /** The queue a call would send to next is at capacity. */
  predicate NextIsFull(cfg: Config, s: State, call: nat) {
    && call < |s.calls| && s.calls[call].sent < |s.calls[call].targets|
    && s.calls[call].targets[s.calls[call].sent] < |s.queues|
    && |s.queues[s.calls[call].targets[s.calls[call].sent]].buffer| >= cfg.capacity
  }

  lemma ForeignStep(cfg: Config, s: State, step: Step, call: nat)
    requires Enabled(cfg, s, step) && call < |s.calls| && !Owns(step, call)
    ensures call < |Apply(cfg, s, step).calls| && Apply(cfg, s, step).calls[call] == s.calls[call]
  {
  }

  lemma PendingStep(cfg: Config, s: State, step: Step, g: Group)
    requires Inv(cfg, s) && Enabled(cfg, s, step) && g in s.pending && step != Install(g)
    ensures g in Apply(cfg, s, step).pending
  {
  }

  /** What a schedule makes of a state if each step that is not possible when its turn comes does not happen. */
  function Interfered(cfg: Config, s: State, steps: seq<Step>): State
    decreases |steps|
  {
    if steps == [] then s else
      var before := Interfered(cfg, s, steps[..|steps| - 1]);
      if Enabled(cfg, before, steps[|steps| - 1]) then Apply(cfg, before, steps[|steps| - 1]) else before
  }

  /** The state once a group is registered with `others` acting between the two locks. */
  function Joined(cfg: Config, s: State, g: Group, others: seq<Step>): State {
    if g in s.receivers then s else
      var t := Interfered(cfg, Apply(cfg, s, Reserve(g)), others);
      if g in t.pending then Apply(cfg, t, Install(g)) else t
  }

  /** The state once the first `n` waits are over, if the waiting thread does nothing itself. */
  function Waited(cfg: Config, s: State, waits: seq<Wait>, n: nat): State
    requires n <= |waits|
  {
    if n == 0 then s else Interfered(cfg, Waited(cfg, s, waits, n - 1), waits[n - 1].steps)
  }

  /** Who is not served now waits no longer: a negative timeout waits forever, zero not at all. */
  predicate RunsOut(timeout: int, w: Wait) {
    timeout == 0 || (timeout > 0 && w.expired)
  }

  /** A receiver has found nothing, no end and no timeout after each of the first `n` waits. */
  predicate WaitedInVain(cfg: Config, timeout: int, s: State, waits: seq<Wait>, n: nat, g: Group)
    requires n <= |waits|
  {
    n == 0
    || (WaitedInVain(cfg, timeout, s, waits, n - 1, g) && StillWaits(Waited(cfg, s, waits, n), g)
        && !RunsOut(timeout, waits[n - 1]))
  }

  // ---- A publish, turn by turn --------------------------------------------------------------------------------

  /** The publisher's next send happens if it can. */
  function Turned(cfg: Config, s: State, call: nat): State {
    if Enabled(cfg, s, Send(call)) then Apply(cfg, s, Send(call)) else s
  }

  /** After the turns at `seen`, each a state the publisher found when its wait was over. */
  function AfterTurns(cfg: Config, begun: State, seen: seq<State>, call: nat): State {
    if seen == [] then begun else Turned(cfg, seen[|seen| - 1], call)
  }

  /** The states found are those that the publisher's own sends and the schedules in between lead to. */
  ghost predicate Follows(cfg: Config, begun: State, waits: seq<Wait>, seen: seq<State>, call: nat) {
    && |seen| <= |waits|
    && forall i :: 0 <= i < |seen| ==>
         seen[i] == Interfered(cfg, AfterTurns(cfg, begun, seen[..i], call), waits[i].steps)
  }

  /** Where a publish stands after its turns, and that it gave up at a full queue and out of time only. */
  ghost predicate Stands(cfg: Config, begun: State, waits: seq<Wait>, seen: seq<State>, call: nat, now: State,
                         r: Option<Result<(), PublishError>>)
    requires Follows(cfg, begun, waits, seen, call)
  {
    && (forall i :: 0 <= i < |seen| && RunsOut(cfg.publishTimeout, waits[i]) && NextIsFull(cfg, seen[i], call) ==>
          i == |seen| - 1 && r.Some? && r.value.Failure?)
    && match r
       case None =>
         |seen| == |waits| && now == AfterTurns(cfg, begun, seen, call) && !Enabled(cfg, now, Return(call))
       case Some(Success(_)) =>
         var sent := AfterTurns(cfg, begun, seen, call);
         Enabled(cfg, sent, Return(call)) && now == Apply(cfg, sent, Return(call))
       case Some(Failure(NoReceivers)) =>
         seen == [] && now == begun && call < |begun.calls| && begun.calls[call].targets == []
       case Some(Failure(error)) =>
         && seen != [] && NextIsFull(cfg, seen[|seen| - 1], call) && RunsOut(cfg.publishTimeout, waits[|seen| - 1])
         && error == (if cfg.publishTimeout == 0 then Full else TimedOut)
         && Enabled(cfg, seen[|seen| - 1], GiveUp(call, error))
         && now == Apply(cfg, seen[|seen| - 1], GiveUp(call, error))
  }

  /** One more wait and one more turn. */
  lemma TurnFollows(cfg: Config, begun: State, waits: seq<Wait>, seen: seq<State>, call: nat)
    requires Follows(cfg, begun, waits, seen, call) && |seen| < |waits|
    ensures Follows(cfg, begun, waits,
                    seen + [Interfered(cfg, AfterTurns(cfg, begun, seen, call), waits[|seen|].steps)], call)
  {
    hide Interfered, AfterTurns;
    var more := seen + [Interfered(cfg, AfterTurns(cfg, begun, seen, call), waits[|seen|].steps)];
    forall i | 0 <= i < |more|
      ensures more[i] == Interfered(cfg, AfterTurns(cfg, begun, more[..i], call), waits[i].steps)
    {
      assert more[..i] == seen[..i];
      assert seen[..|seen|] == seen;
    }
  }

  /** So far the publisher has not been at a full queue with its time run out. */
  predicate Patient(cfg: Config, waits: seq<Wait>, seen: seq<State>, call: nat)
    requires |seen| <= |waits|
  {
    forall i :: 0 <= i < |seen| ==> !(RunsOut(cfg.publishTimeout, waits[i]) && NextIsFull(cfg, seen[i], call))
  }

  /** A turn that does not end the publish. */
  lemma TurnTaken(cfg: Config, begun: State, waits: seq<Wait>, seen: seq<State>, call: nat, s: State)
    requires |seen| < |waits| && Patient(cfg, waits, seen, call)
    requires !(RunsOut(cfg.publishTimeout, waits[|seen|]) && NextIsFull(cfg, s, call))
    ensures Patient(cfg, waits, seen + [s], call) && AfterTurns(cfg, begun, seen + [s], call) == Turned(cfg, s, call)
  {
    hide NextIsFull, RunsOut, Turned;
  }

  /** A turn that does. */
  lemma TurnRefused(cfg: Config, begun: State, waits: seq<Wait>, seen: seq<State>, call: nat, s: State)
    requires |seen| < |waits| && Patient(cfg, waits, seen, call) && Follows(cfg, begun, waits, seen + [s], call)
    requires RunsOut(cfg.publishTimeout, waits[|seen|]) && NextIsFull(cfg, s, call)
    requires call < |s.calls| && s.calls[call].status.Sending?
    ensures var error := if cfg.publishTimeout == 0 then Full else TimedOut;
            && Enabled(cfg, s, GiveUp(call, error))
            && Stands(cfg, begun, waits, seen + [s], call, Apply(cfg, s, GiveUp(call, error)), Some(Failure(error)))
  {
    hide Follows;
  }

  /** A publisher whose schedule ends before it is done. */
  lemma StillSends(cfg: Config, begun: State, waits: seq<Wait>, seen: seq<State>, call: nat, now: State)
    requires Follows(cfg, begun, waits, seen, call) && Patient(cfg, waits, seen, call) && |seen| == |waits|
    requires now == AfterTurns(cfg, begun, seen, call)
    requires call < |now.calls| && now.calls[call].sent < |now.calls[call].targets|
    ensures Stands(cfg, begun, waits, seen, call, now, None)
  {
    hide Follows, AfterTurns, NextIsFull, RunsOut;
  }

  /** One that is done. */
  lemma AllSent(cfg: Config, begun: State, waits: seq<Wait>, seen: seq<State>, call: nat, s: State)
    requires Follows(cfg, begun, waits, seen, call) && Patient(cfg, waits, seen, call)
    requires s == AfterTurns(cfg, begun, seen, call) && Enabled(cfg, s, Return(call))
    ensures Stands(cfg, begun, waits, seen, call, Apply(cfg, s, Return(call)), Some(Success(())))
  {
    hide Follows, AfterTurns, NextIsFull, RunsOut;
  }

  /** At each turn one copy goes to the next queue, unless that queue is at capacity. */
  lemma TurnSends(cfg: Config, s: State, call: nat)
    requires Unfinished(s, call)
    ensures NextIsFull(cfg, s, call) ==> Turned(cfg, s, call) == s
    ensures !NextIsFull(cfg, s, call) ==>
              var c, t := s.calls[call], Turned(cfg, s, call);
              var q := c.targets[c.sent];
              && t.calls == s.calls[call := c.(sent := c.sent + 1)]
              && |t.queues| == |s.queues|
              && t.queues[q].buffer == s.queues[q].buffer + [Item(call, c.msg)]
              && forall p :: 0 <= p < |s.queues| && p != q ==> t.queues[p] == s.queues[p]
  {
  }

  /** The state of a publisher left alone for `n` turns. */
  predicate InStep(cfg: Config, begun: State, t: State, call: nat, n: nat) {
    && call < |begun.calls| && call < |t.calls|
    && var targets := begun.calls[call].targets;
    && t.calls[call].targets == targets && t.calls[call].status.Sending?
    && t.calls[call].sent == (if n <= |targets| then n else |targets|)
    && (forall j :: 0 <= j < |targets| ==> targets[j] < |t.queues|)
    && (forall j :: t.calls[call].sent <= j < |targets| ==> |t.queues[targets[j]].buffer| < cfg.capacity)
  }

  lemma NextStep(cfg: Config, begun: State, t: State, call: nat, n: nat)
    requires Roomy(cfg, begun, call) && InStep(cfg, begun, t, call, n)
    ensures InStep(cfg, begun, Turned(cfg, t, call), call, n + 1)
  {
  }

  /** Left alone, with room in each queue it is to send to, a publisher sends at each turn. */
  lemma {:induction false} IdleTurns(cfg: Config, begun: State, waits: seq<Wait>, seen: seq<State>, call: nat, n: nat)
    requires Follows(cfg, begun, waits, seen, call) && n <= |seen|
    requires forall w :: w in waits ==> w.steps == []
    requires Roomy(cfg, begun, call) && begun.calls[call].sent == 0
    ensures InStep(cfg, begun, AfterTurns(cfg, begun, seen[..n], call), call, n)
    ensures n > 0 ==> seen[n - 1] == AfterTurns(cfg, begun, seen[..n - 1], call)
    decreases n
  {
    if n == 0 {
    } else {
      hide Roomy, InStep, Turned;
      IdleTurns(cfg, begun, waits, seen, call, n - 1);
      assert waits[n - 1] in waits;
      assert seen[..n][n - 1] == seen[n - 1];
      NextStep(cfg, begun, AfterTurns(cfg, begun, seen[..n - 1], call), call, n - 1);
    }
  }

  /** A call under way to distinct queues that exist and are below capacity. */
  predicate Roomy(cfg: Config, s: State, call: nat) {
    && call < |s.calls| && s.calls[call].status.Sending?
    && var targets := s.calls[call].targets;
    && (forall j :: 0 <= j < |targets| ==> targets[j] < |s.queues| && |s.queues[targets[j]].buffer| < cfg.capacity)
    && (forall i, j :: 0 <= i < j < |targets| ==> targets[i] != targets[j])
  }

  /** Such a publisher succeeds, whatever its timeout, if it is left as many turns as there are queues. */
  lemma IdleSucceeds(cfg: Config, begun: State, waits: seq<Wait>, seen: seq<State>, call: nat, now: State,
                     r: Option<Result<(), PublishError>>)
    requires Follows(cfg, begun, waits, seen, call) && Stands(cfg, begun, waits, seen, call, now, r)
    requires forall w :: w in waits ==> w.steps == []
    requires Roomy(cfg, begun, call) && begun.calls[call].sent == 0 && |waits| >= |begun.calls[call].targets| > 0
    ensures r == Some(Success(()))
  {
    hide Follows, Apply, AfterTurns, Roomy, NextIsFull, RunsOut, Enabled;
    if seen != [] {
      IdleLast(cfg, begun, waits, seen, call);
    }
    if r.None? {
      IdleDone(cfg, begun, waits, seen, call);
    } else {
      assert r.value.Success?;
      assert r.value.value == ();
    }
  }

  lemma IdleDone(cfg: Config, begun: State, waits: seq<Wait>, seen: seq<State>, call: nat)
    requires Follows(cfg, begun, waits, seen, call)
    requires forall w :: w in waits ==> w.steps == []
    requires Roomy(cfg, begun, call) && begun.calls[call].sent == 0
    requires |seen| >= |begun.calls[call].targets|
    ensures Enabled(cfg, AfterTurns(cfg, begun, seen, call), Return(call))
  {
    IdleTurns(cfg, begun, waits, seen, call, |seen|);
    assert seen[..|seen|] == seen;
    hide Follows, AfterTurns, Roomy;
  }

  lemma IdleLast(cfg: Config, begun: State, waits: seq<Wait>, seen: seq<State>, call: nat)
    requires Follows(cfg, begun, waits, seen, call) && seen != []
    requires forall w :: w in waits ==> w.steps == []
    requires Roomy(cfg, begun, call) && begun.calls[call].sent == 0
    ensures !NextIsFull(cfg, seen[|seen| - 1], call)
  {
    IdleTurns(cfg, begun, waits, seen, call, |seen|);
    IdleTurns(cfg, begun, waits, seen, call, |seen| - 1);
    hide Follows, AfterTurns, Roomy;
    var last := seen[|seen| - 1];
    assert last.calls[call].targets == begun.calls[call].targets;
  }

  lemma NoneToSend(cfg: Config, begun: State, waits: seq<Wait>, call: nat)
    requires Follows(cfg, begun, waits, [], call) && call < |begun.calls| && begun.calls[call].targets == []
    ensures Stands(cfg, begun, waits, [], call, begun, Some(Failure(NoReceivers)))
  {
  }

  lemma StartsOut(cfg: Config, begun: State, waits: seq<Wait>, call: nat)
    ensures Follows(cfg, begun, waits, [], call) && Patient(cfg, waits, [], call)
    ensures AfterTurns(cfg, begun, [], call) == begun
  {
  }

  /** The same from before the call: room for each sender's group is enough. */
  lemma IdlePublish(cfg: Config, s: State, begin: Step, waits: seq<Wait>, seen: seq<State>, now: State,
                    r: Option<Result<(), PublishError>>)
    requires Inv(cfg, s) && begin.Begin? && Enabled(cfg, s, begin)
    requires Follows(cfg, Apply(cfg, s, begin), waits, seen, |s.calls|)
    requires Stands(cfg, Apply(cfg, s, begin), waits, seen, |s.calls|, now, r)
    ensures (forall w :: w in waits ==> w.steps == []) && |waits| >= |begin.order| > 0
            && (forall g :: g in begin.order ==>
                  g in s.senders && (s.senders[g] < |s.queues| ==>
                                     |s.queues[s.senders[g]].buffer| < cfg.capacity)) ==>
              r == Some(Success(()))
  {
    hide Follows, Stands, Extends, Flowing, Sourced, Delivered, InOrder, Busy, Orders, Wired, OneAtATime;
    var begun, c := Apply(cfg, s, begin), |s.calls|;
    StepKeeps(cfg, s, begin);
    assert CallFits(begun, begun.calls[c]);
    if (forall w :: w in waits ==> w.steps == []) && |waits| >= |begin.order| > 0
       && (forall g :: g in begin.order ==>
             g in s.senders && (s.senders[g] < |s.queues| ==> |s.queues[s.senders[g]].buffer| < cfg.capacity)) {
      var targets := begun.calls[c].targets;
      forall j | 0 <= j < |targets|
        ensures targets[j] < |begun.queues| && |begun.queues[targets[j]].buffer| < cfg.capacity
      {
        assert begin.order[j] in begin.order;
      }
      IdleSucceeds(cfg, begun, waits, seen, c, now, r);
    }
  }

  class LocalChannel {
    const cfg: Config
    const consumeTimeout: int
    var queues: seq<Queue>
    var receivers: map<Group, nat>
    var senders: map<Group, nat>
    // Held by threads rather than by the channel.
    var pending: map<Group, nat>
    var calls: seq<Call>

    function Now(): State
      reads this
    {
      State(queues, receivers, senders, pending, calls)
    }

    ghost predicate Valid()
      reads this
    {
      Inv(cfg, Now())
    }

    constructor (capacity: nat, publishTimeout: int, consumeTimeout: int)
      ensures Valid() && Now() == EMPTY
      ensures cfg == Config(capacity, publishTimeout) && this.consumeTimeout == consumeTimeout
    {
      cfg, this.consumeTimeout := Config(capacity, publishTimeout), consumeTimeout;
      queues, receivers, senders, pending, calls := [], map[], map[], map[], [];
    }

    method Become(s: State)
      modifies this
      ensures Now() == s
    {
      queues, receivers, senders, pending, calls := s.queues, s.receivers, s.senders, s.pending, s.calls;
    }

    /** Other threads run; a step that is not possible when its turn comes does not happen. */
    method Interfere(steps: seq<Step>)
      requires Valid()
      modifies this
      ensures Valid() && Extends(old(Now()), Now())
      ensures forall c: nat :: c < |old(calls)| && Foreign(steps, c) ==> c < |calls| && calls[c] == old(calls)[c]
      ensures forall g :: g in old(pending) && Install(g) !in steps ==> g in pending
      ensures Now() == Interfered(cfg, old(Now()), steps)
    {
      hide Inv, Extends, Apply, Enabled;
      ghost var start := Now();
      ExtendsRefl(start);
      for i := 0 to |steps|
        invariant Valid() && Extends(start, Now())
        invariant forall c: nat :: c < |start.calls| && Foreign(steps, c) ==> c < |calls| && calls[c] == start.calls[c]
        invariant forall g :: g in start.pending && Install(g) !in steps ==> g in pending
        invariant Now() == Interfered(cfg, start, steps[..i])
      {
        assert steps[..i + 1][..i] == steps[..i];
        if Enabled(cfg, Now(), steps[i]) {
          ghost var s := Now();
          StepKeeps(cfg, s, steps[i]);
          Become(Apply(cfg, Now(), steps[i]));
          ExtendsTrans(start, s, Now());
          forall c: nat | c < |start.calls| && Foreign(steps, c)
            ensures c < |calls| && calls[c] == start.calls[c]
          {
            ForeignStep(cfg, s, steps[i], c);
          }
          forall g | g in start.pending && Install(g) !in steps
            ensures g in pending
          {
            PendingStep(cfg, s, steps[i], g);
          }
        }
      }
      assert steps[..|steps|] == steps;
    }

    /** Registers a group: its receiver under one lock, then its sender under another. */
    method InitGroup(group: Group, others: seq<Step>)
      requires Valid() && Install(group) !in others
      modifies this
      ensures Valid() && Extends(old(Now()), Now()) && group in receivers
      ensures Now() == Joined(cfg, old(Now()), group, others)
      ensures group !in old(receivers) ==> group in senders && senders[group] == receivers[group] && group !in pending
    {
      hide Inv, Extends, Flowing, Sourced, Delivered, InOrder, Interfered;
      if group in receivers {
        ExtendsRefl(Now());
        return;
      }
      ghost var s0 := Now();
      var q := |queues|;
      queues := queues + [Queue([], [], [])];
      receivers, pending := receivers[group := q], pending[group := q];
      assert Now() == Apply(cfg, s0, Reserve(group));
      StepKeeps(cfg, s0, Reserve(group));
      ghost var s1 := Now();
      Interfere(others);
      ExtendsTrans(s0, s1, Now());
      ghost var s2 := Now();
      senders, pending := senders[group := pending[group]], pending - {group};
      assert Now() == Apply(cfg, s2, Install(group));
      StepKeeps(cfg, s2, Install(group));
      ExtendsTrans(s0, s2, Now());
      SenderWired(cfg, Now(), group);
    }

    /** Drops the channel's senders. */
    method Close()
      requires Valid()
      modifies this
      ensures Valid() && Now() == old(Now()).(senders := map[])
    {
      ghost var s := Now();
      senders := map[];
      StepKeeps(cfg, s, Step.Close);
    }

    /** One attempt at the next queue: a copy goes in if there is room, else the publisher may have to give up. */
    method TrySend(c: nat, wait: Wait) returns (error: Option<PublishError>)
      requires Valid() && c < |calls| && calls[c].status.Sending? && calls[c].sent < |calls[c].targets|
      modifies this
      ensures Valid() && Extends(old(Now()), Now())
      ensures error.Some? <==> NextIsFull(cfg, old(Now()), c) && RunsOut(cfg.publishTimeout, wait)
      ensures error.Some? ==>
                && error.value == (if cfg.publishTimeout == 0 then Full else TimedOut)
                && Enabled(cfg, old(Now()), GiveUp(c, error.value))
                && Now() == Apply(cfg, old(Now()), GiveUp(c, error.value)) && NextIsFull(cfg, Now(), c)
                && calls == old(calls[c := calls[c].(status := Refused(error.value))])
      ensures error.None? ==> Now() == Turned(cfg, old(Now()), c)
      ensures error.None? && NextIsFull(cfg, old(Now()), c) ==> Now() == old(Now())
      ensures error.None? && !NextIsFull(cfg, old(Now()), c) ==>
                calls == old(calls[c := calls[c].(sent := calls[c].sent + 1)])
    {
      hide Inv, Extends, Flowing, Sourced, Delivered, InOrder, Wired, OneAtATime, CallFits;
      ghost var s := Now();
      TargetsExist(cfg, s, c);
      ExtendsRefl(s);
      var call := calls[c];
      var q := call.targets[call.sent];
      error := None;
      if |queues[q].buffer| < cfg.capacity {
        queues := queues[q := Put(queues[q], Item(c, call.msg))];
        calls := calls[c := call.(sent := call.sent + 1)];
        assert Now() == Apply(cfg, s, Send(c));
        StepKeeps(cfg, s, Send(c));
      } else if cfg.publishTimeout == 0 || (cfg.publishTimeout > 0 && wait.expired) {
        error := Some(if cfg.publishTimeout == 0 then Full else TimedOut);
        calls := calls[c := call.(status := Refused(error.value))];
        StepKeeps(cfg, s, GiveUp(c, error.value));
      }
    }

    /**
     * Clones every sender, then sends to one group after another. `order` is the map's iteration order, and `seen`
     * what the publisher finds whenever it gets on. None means the schedule ends while it still waits.
     */
    method Publish(who: nat, msg: Message, order: seq<Group>, waits: seq<Wait>)
      returns (r: Option<Result<(), PublishError>>, ghost seen: seq<State>)
      requires Valid() && Orders(order, senders) && !Busy(Now(), who)
      requires forall w :: w in waits ==> Foreign(w.steps, |calls|)
      modifies this
      ensures Valid() && Extends(old(Now()), Now()) && |old(calls)| < |calls|
      ensures Enabled(cfg, old(Now()), Begin(who, msg, order))
      ensures var begun := Apply(cfg, old(Now()), Begin(who, msg, order));
              && Follows(cfg, begun, waits, seen, |old(calls)|)
              && Stands(cfg, begun, waits, seen, |old(calls)|, Now(), r)
      ensures r.None? ==> calls[|old(calls)|].status.Sending?
      ensures r == Some(Success(())) ==> calls[|old(calls)|].status.Sent?
      ensures r.Some? && r.value.Failure? ==> calls[|old(calls)|].status == Refused(r.value.error)
      ensures r == Some(Failure(Full)) ==> cfg.publishTimeout == 0 && NextIsFull(cfg, Now(), |old(calls)|)
      ensures r == Some(Failure(TimedOut)) ==> cfg.publishTimeout > 0 && NextIsFull(cfg, Now(), |old(calls)|)
      ensures r.Some? ==> r != Some(Failure(Dropped))
      ensures r == Some(Failure(NoReceivers)) <==> order == []
      ensures (forall w :: w in waits ==> w.steps == []) && |waits| >= |order| > 0
              && (forall g :: g in order ==> |old(queues[senders[g]].buffer)| < cfg.capacity) ==>
                r == Some(Success(()))
      ensures forall g :: g in receivers ==> receivers[g] < |queues| && LeftCopies(old(Now()), Now(), order, g)
    {
      hide Inv, Extends, LeftCopies, Flowing, Sourced, Delivered, InOrder, Busy, Orders, Wired, Follows, AfterTurns,
           Interfered, Patient, Roomy, Stands, CallFits, OneAtATime, RunsOut, Turned, NextIsFull, Unfinished, HasRoom,
           Put, Pop, Owns;
      ghost var s0 := Now();
      var c := |calls|;
      ghost var begin := Begin(who, msg, order);
      OrdersIn(order, senders);
      var call := Call(who, msg, Targets(order, senders), 0, if order == [] then Refused(NoReceivers) else Sending);
      calls := calls + [call];
      ghost var begun := Now();
      assert begun == Apply(cfg, s0, begin);
      StepKeeps(cfg, s0, begin);
      ExtendsRefl(begun);
      seen := [];
      StartsOut(cfg, begun, waits, c);
      if order == [] {
        NoneToSend(cfg, begun, waits, c);
        Conclude(cfg, s0, begin, Now());
        return Some(Failure(NoReceivers)), seen;
      }
      var i := 0;
      while call.sent < |call.targets|
        invariant Valid() && Extends(begun, Now())
        invariant i <= |waits| && call.sent <= |call.targets|
        invariant c < |calls| && calls[c] == call && call.msg == msg && call.status.Sending?
        invariant |seen| == i && Follows(cfg, begun, waits, seen, c) && Patient(cfg, waits, seen, c)
        invariant Now() == AfterTurns(cfg, begun, seen, c)
        decreases |waits| - i
      {
        if i == |waits| {
          Conclude(cfg, s0, begin, Now());
          StillSends(cfg, begun, waits, seen, c, Now());
          IdlePublish(cfg, s0, begin, waits, seen, Now(), None);
          return None, seen;
        }
        ghost var s1 := Now();
        assert waits[i] in waits;
        Interfere(waits[i].steps);
        ExtendsTrans(begun, s1, Now());
        ghost var s2 := Now();
        TurnFollows(cfg, begun, waits, seen, c);
        var error := TrySend(c, waits[i]);
        ExtendsTrans(begun, s2, Now());
        if error.Some? {
          TurnRefused(cfg, begun, waits, seen, c, s2);
          Conclude(cfg, s0, begin, Now());
          seen := seen + [s2];
          IdlePublish(cfg, s0, begin, waits, seen, Now(), Some(Failure(error.value)));
          return Some(Failure(error.value)), seen;
        }
        call := calls[c];
        TurnTaken(cfg, begun, waits, seen, c, s2);
        seen := seen + [s2];
        i := i + 1;
      }
      ghost var s3 := Now();
      calls := calls[c := call.(status := Sent)];
      assert Now() == Apply(cfg, s3, Return(c));
      AllSent(cfg, begun, waits, seen, c, s3);
      StepKeeps(cfg, s3, Return(c));
      ExtendsTrans(begun, s3, Now());
      Conclude(cfg, s0, begin, Now());
      r := Some(Success(()));
    }

    /**
     * Joins a group, creating it at need, and takes its oldest message as soon as it finds one. `turns` is how many
     * waits it takes. None means the schedule ends while the consumer still waits.
     */
    method Consume(group: Group, taker: nat, others: seq<Step>, waits: seq<Wait>)
      returns (r: Option<Result<Message, ConsumeError>>, ghost turns: nat)
      requires Valid() && Install(group) !in others
      modifies this
      ensures Valid() && Extends(old(Now()), Now()) && group in receivers && receivers[group] < |queues|
      ensures turns <= |waits| && (r.None? ==> turns == |waits|) && (r.Some? ==> turns > 0)
      ensures var s := Joined(cfg, old(Now()), group, others);
              WaitedInVain(cfg, consumeTimeout, s, waits, if r.Some? then turns - 1 else turns, group)
      ensures var s := Waited(cfg, Joined(cfg, old(Now()), group, others), waits, turns);
              && group in s.receivers && s.receivers[group] < |s.queues|
              && var buffer := s.queues[s.receivers[group]].buffer;
              if turns > 0 && buffer != [] then
                r == Some(Success(buffer[0].msg)) && Now() == Apply(cfg, s, Take(group, taker))
              else
                && Now() == s
                && (turns > 0 ==>
                    r == if SeesClosed(s, group) then Some(Failure(NoSenders))
                    else if RunsOut(consumeTimeout, waits[turns - 1]) then Some(Failure(NoMessage))
                    else None)
    {
      hide Inv, Extends, Flowing, Sourced, Delivered, InOrder, SeesClosed, OneAtATime, CallFits, Joined, Interfered;
      ghost var s0 := Now();
      InitGroup(group, others);
      ghost var joined := Now();
      turns := 0;
      for i := 0 to |waits|
        invariant Valid() && Extends(s0, Now()) && group in receivers
        invariant turns == i && Now() == Waited(cfg, joined, waits, i)
        invariant WaitedInVain(cfg, consumeTimeout, joined, waits, i, group)
      {
        ghost var s1 := Now();
        Interfere(waits[i].steps);
        turns := i + 1;
        ExtendsTrans(s0, s1, Now());
        ghost var s2 := Now();
        StillRegistered(cfg, s1, s2, group);
        var q := receivers[group];
        if queues[q].buffer != [] {
          r := Some(Success(queues[q].buffer[0].msg));
          queues := queues[q := Pop(queues[q], taker)];
          assert Now() == Apply(cfg, s2, Take(group, taker));
          StepKeeps(cfg, s2, Take(group, taker));
          ExtendsTrans(s0, s2, Now());
          return;
        } else if SeesClosed(Now(), group) {
          return Some(Failure(NoSenders)), turns;
        } else if consumeTimeout == 0 || (consumeTimeout > 0 && waits[i].expired) {
          return Some(Failure(NoMessage)), turns;
        }
      }
      StillRegistered(cfg, Now(), Now(), group);
      r := None;
    }
  }

  lemma OrdersIn(order: seq<Group>, m: map<Group, nat>)
    requires Orders(order, m)
    ensures forall g :: g in order ==> g in m
  {
  }

  lemma SenderWired(cfg: Config, s: State, g: Group)
    requires Inv(cfg, s) && g in s.senders
    ensures g in s.receivers && s.senders[g] == s.receivers[g] && g !in s.pending
  {
  }

  lemma StillRegistered(cfg: Config, s: State, t: State, g: Group)
    requires Inv(cfg, t) && g in s.receivers && (s == t || Extends(s, t))
    ensures g in t.receivers && t.receivers[g] < |t.queues|
  {
  }

  lemma TargetsExist(cfg: Config, s: State, c: nat)
    requires Inv(cfg, s) && c < |s.calls|
    ensures forall i :: 0 <= i < |s.calls[c].targets| ==> s.calls[c].targets[i] < |s.queues|
  {
    assert CallFits(s, s.calls[c]);
  }

  /** The copies a publish has left, whenever it ends. */
  lemma Conclude(cfg: Config, before: State, begin: Step, after: State)
    requires Inv(cfg, before) && begin.Begin? && Enabled(cfg, before, begin)
    requires Inv(cfg, after) && Extends(Apply(cfg, before, begin), after)
    ensures |before.calls| < |after.calls| && Extends(before, after)
    ensures forall g :: g in after.receivers ==>
              after.receivers[g] < |after.queues| && LeftCopies(before, after, begin.order, g)
  {
    hide Inv, LeftCopies, Apply, Enabled;
    StepKeeps(cfg, before, begin);
    ExtendsTrans(before, Apply(cfg, before, begin), after);
    forall g | g in after.receivers
      ensures |before.calls| < |after.calls| && after.receivers[g] < |after.queues|
                && LeftCopies(before, after, begin.order, g)
    {
      CopiesLeft(cfg, before, begin, after, g);
    }
    CallsGrow(cfg, before, begin, after);
  }

  lemma CallsGrow(cfg: Config, before: State, begin: Step, after: State)
    requires begin.Begin? && Enabled(cfg, before, begin) && Extends(Apply(cfg, before, begin), after)
    ensures |before.calls| < |after.calls|
  {
  }
}
