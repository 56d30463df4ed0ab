/** What the channel promises over every interleaving: fan-out, order, single delivery, closing and draining. */
module ChannelGuarantees {
  import opened Channel
  import opened Wrappers

  // ---- Exactly which copies a publish leaves -----------------------------------------------------------------

  /** How often a call's message was accepted. */
  function Copies(acc: seq<Item>, call: nat): nat {
    if acc == [] then 0 else Copies(acc[..|acc| - 1], call) + if acc[|acc| - 1].call == call then 1 else 0
  }

  lemma {:induction false} CopiesOfDistinct(acc: seq<Item>, call: nat)
    requires forall i, j :: 0 <= i < j < |acc| ==> acc[i].call != acc[j].call
    ensures Copies(acc, call) == if exists i :: 0 <= i < |acc| && acc[i].call == call then 1 else 0
  {
    if acc != [] {
      CopiesOfDistinct(acc[..|acc| - 1], call);
      if i :| 0 <= i < |acc| - 1 && acc[i].call == call {
        assert acc[..|acc| - 1][i].call == call;
      }
    }
  }

  /** One copy in each queue already sent to, none anywhere else. */
  lemma ExactCopies(cfg: Config, s: State, c: nat, q: nat)
    requires Inv(cfg, s) && c < |s.calls| && q < |s.queues|
    ensures s.calls[c].sent <= |s.calls[c].targets|
    ensures Copies(s.queues[q].accepted, c) == if q in s.calls[c].targets[..s.calls[c].sent] then 1 else 0
  {
    hide Flowing, InOrder, Wired, OneAtATime;
    var acc := s.queues[q].accepted;
    assert Sourced(s, q) && Delivered(s, c) && CallFits(s, s.calls[c]);
    CopiesOfDistinct(acc, c);
    var done := s.calls[c].targets[..s.calls[c].sent];
    if q in done {
      var k :| 0 <= k < |done| && done[k] == q;
      assert s.calls[c].targets[k] == q;
      assert Item(c, s.calls[c].msg) in acc;
    }
  }

  /** Where a group stands in a publisher's iteration order. */
  predicate Reached(order: seq<Group>, g: Group, sent: nat) {
    exists i :: 0 <= i < |order| && i < sent && order[i] == g
  }

  /**
   * What a publish that began in `before` has left in `after`: one copy with every group of its snapshot that
   * it reached and none with any other; all of the snapshot if it returned Ok, a proper prefix of its iteration
   * order if it failed. It fails for want of receivers exactly when the snapshot is empty.
   */
  ghost predicate LeftCopies(before: State, after: State, order: seq<Group>, g: Group)
    requires |before.calls| < |after.calls| && g in after.receivers && after.receivers[g] < |after.queues|
  {
    var call := after.calls[|before.calls|];
    && Copies(after.queues[after.receivers[g]].accepted, |before.calls|) ==
         (if Reached(order, g, call.sent) then 1 else 0)
    && (call.status.Sent? ==> before.senders != map[] && (Reached(order, g, call.sent) <==> g in before.senders))
    && (call.status.Refused? ==> before.senders == map[] || call.sent < |before.senders|)
    && (call.status == Refused(NoReceivers) <==> before.senders == map[])
  }

  lemma CopiesLeft(cfg: Config, before: State, begin: Step, after: State, g: Group)
    requires Inv(cfg, before) && begin.Begin? && Enabled(cfg, before, begin)
    requires Inv(cfg, after) && Extends(Apply(cfg, before, begin), after) && g in after.receivers
    ensures |before.calls| < |after.calls| && after.receivers[g] < |after.queues|
    ensures LeftCopies(before, after, begin.order, g)
  {
    var begun := Apply(cfg, before, begin);
    var c := |before.calls|;
    assert CallExtends(begun.calls[c], after.calls[c]);
    assert CallFits(after, after.calls[c]);
    OrderSize(begin.order, before.senders);
    ExactCopies(cfg, after, c, after.receivers[g]);
    SnapshotReached(before, after, begin.order, g, after.calls[c].sent);
    if g in before.senders {
      assert g in begin.order;
    }
  }

  /** Whatever the other threads do meanwhile, a publish leaves the copies it should. */
  lemma FanOut(cfg: Config, before: State, begin: Step, steps: seq<Step>, g: Group)
    requires Inv(cfg, before) && begin.Begin? && Enabled(cfg, before, begin)
    requires Possible(cfg, Apply(cfg, before, begin), steps)
    requires g in Run(cfg, Apply(cfg, before, begin), steps).receivers
    ensures var after := Run(cfg, Apply(cfg, before, begin), steps);
            && |before.calls| < |after.calls| && after.receivers[g] < |after.queues|
            && LeftCopies(before, after, begin.order, g)
  {
    hide LeftCopies;
    StepKeeps(cfg, before, begin);
    RunKeeps(cfg, Apply(cfg, before, begin), steps);
    CopiesLeft(cfg, before, begin, Run(cfg, Apply(cfg, before, begin), steps), g);
  }

  /** Queues identify groups, so reaching a group is sending to its queue. */
  lemma SnapshotReached(before: State, after: State, order: seq<Group>, g: Group, sent: nat)
    requires Wired(before) && Wired(after) && Extends(before, after)
    requires Orders(order, before.senders) && g in after.receivers && sent <= |order|
    ensures after.receivers[g] in Targets(order, before.senders)[..sent] <==> Reached(order, g, sent)
  {
    var targets := Targets(order, before.senders);
    if after.receivers[g] in targets[..sent] {
      var i :| 0 <= i < sent && targets[i] == after.receivers[g];
      assert order[i] in order;
      assert after.receivers[order[i]] == after.receivers[g];
    }
    if Reached(order, g, sent) {
      var i :| 0 <= i < |order| && i < sent && order[i] == g;
      assert order[i] in order;
      assert targets[..sent][i] == after.receivers[g];
    }
  }

  lemma {:induction false} OrderSize(order: seq<Group>, m: map<Group, nat>)
    requires Orders(order, m)
    ensures |order| == |m|
  {
    DistinctSize(order);
    assert (set g | g in order) == m.Keys;
  }

  lemma {:induction false} DistinctSize(order: seq<Group>)
    requires forall i, j :: 0 <= i < j < |order| ==> order[i] != order[j]
    ensures |set g | g in order| == |order|
  {
    if order != [] {
      var front := order[..|order| - 1];
      DistinctSize(front);
      assert (set g | g in order) == (set g | g in front) + {order[|order| - 1]};
    }
  }

  // ---- What consumers see -----------------------------------------------------------------------------------

  /** How often a call's message was handed to some consumer. */
  function Deliveries(taken: seq<Taken>, call: nat): nat {
    if taken == [] then 0 else Deliveries(taken[..|taken| - 1], call) + if taken[|taken| - 1].item.call == call then
        1 else 0
  }

  lemma {:induction false} DeliveriesAreCopies(taken: seq<Taken>, acc: seq<Item>, call: nat)
    requires |taken| == |acc| && forall i :: 0 <= i < |taken| ==> taken[i].item == acc[i]
    ensures Deliveries(taken, call) == Copies(acc, call)
  {
    if taken != [] {
      DeliveriesAreCopies(taken[..|taken| - 1], acc[..|acc| - 1], call);
    }
  }

  lemma {:induction false} CopiesSplit(a: seq<Item>, b: seq<Item>, call: nat)
    ensures Copies(a + b, call) == Copies(a, call) + Copies(b, call)
  {
    if b == [] {
      assert a + b == a;
    } else {
      CopiesSplit(a, b[..|b| - 1], call);
      assert (a + b)[..|a + b| - 1] == a + b[..|b| - 1];
    }
  }

  /**
   * In every reachable state: each copy is either still queued or was handed to one consumer of the group,
   * never two; consumers see the group's messages in the order they were accepted; and any two messages of
   * one publisher are accepted in the order they were published.
   */
  lemma SingleDeliveryInOrder(cfg: Config, steps: seq<Step>, g: Group, call: nat)
    requires Possible(cfg, EMPTY, steps) && g in Run(cfg, EMPTY, steps).receivers
    ensures var s := Run(cfg, EMPTY, steps);
            && s.receivers[g] < |s.queues|
            && var q := s.queues[s.receivers[g]];
            && |q.buffer| <= cfg.capacity
            && Copies(q.accepted, call) == Deliveries(q.consumed, call) + Copies(q.buffer, call) <= 1
            && |q.consumed| <= |q.accepted|
            && (forall i :: 0 <= i < |q.consumed| ==> q.consumed[i].item == q.accepted[i])
            && (forall i :: 0 <= i < |q.accepted| ==> q.accepted[i].call < |s.calls|)
            && (forall i, j :: 0 <= i < j < |q.accepted|
                               && s.calls[q.accepted[i].call].who == s.calls[q.accepted[j].call].who ==>
                  q.accepted[i].call < q.accepted[j].call)
  {
    RunKeeps(cfg, EMPTY, steps);
    var s := Run(cfg, EMPTY, steps);
    var q := s.queues[s.receivers[g]];
    assert Flowing(cfg, q) && Sourced(s, s.receivers[g]) && InOrder(s, s.receivers[g]);
    var n := |q.consumed|;
    assert q.accepted == q.accepted[..n] + q.buffer;
    CopiesSplit(q.accepted[..n], q.buffer, call);
    DeliveriesAreCopies(q.consumed, q.accepted[..n], call);
    CopiesOfDistinct(q.accepted, call);
  }

  /** A group keeps its queue for life. */
  lemma OneQueueForLife(cfg: Config, before: seq<Step>, after: seq<Step>, g: Group)
    requires Possible(cfg, EMPTY, before) && Possible(cfg, Run(cfg, EMPTY, before), after)
    requires g in Run(cfg, EMPTY, before).receivers
    ensures var s := Run(cfg, EMPTY, before);
            var t := Run(cfg, s, after);
            && g in t.receivers && t.receivers[g] == s.receivers[g]
            && (forall h :: h in t.receivers && t.receivers[h] == t.receivers[g] ==> h == g)
            && (g in t.senders ==> t.senders[g] == s.receivers[g])
  {
    RunKeeps(cfg, EMPTY, before);
    RunKeeps(cfg, Run(cfg, EMPTY, before), after);
  }

  // ---- Closing ---------------------------------------------------------------------------------------------------

  /** A live call still holds a clone of the sender of queue `q`. */
  predicate Held(s: State, q: nat) {
    exists c :: 0 <= c < |s.calls| && s.calls[c].status.Sending? && q in s.calls[c].targets
  }

  /** A receiver reports Closed: nothing queued and no sender left anywhere. */
  predicate SeesClosed(s: State, g: Group) {
    && g in s.receivers && s.receivers[g] < |s.queues|
    && s.queues[s.receivers[g]].buffer == []
    && g !in s.senders && g !in s.pending && !Held(s, s.receivers[g])
  }

  /** A receiver has nothing to take and is not told Closed. */
  predicate StillWaits(s: State, g: Group) {
    && g in s.receivers && s.receivers[g] < |s.queues|
    && s.queues[s.receivers[g]].buffer == [] && !SeesClosed(s, g)
  }

  /** A call that may still reach queue `q`. */
  predicate StillSending(s: State, c: nat, q: nat) {
    c < |s.calls| && s.calls[c].status.Sending? && q in s.calls[c].targets
  }

  /** Without a sender in the map, nobody new can clone it. */
  lemma NoNewHolder(cfg: Config, s: State, step: Step, g: Group, c: nat)
    requires Inv(cfg, s) && Enabled(cfg, s, step) && g in s.receivers && g !in s.senders
    ensures StillSending(Apply(cfg, s, step), c, s.receivers[g]) ==> StillSending(s, c, s.receivers[g])
  {
    hide Delivered, Sourced, InOrder, OneAtATime, Flowing, CallFits;
    if step.Begin? && c == |s.calls| {
      forall i | 0 <= i < |step.order|
        ensures s.senders[step.order[i]] != s.receivers[g]
      {
        assert step.order[i] in step.order;
      }
    }
  }

  lemma StepAfterClosed(cfg: Config, s: State, step: Step, g: Group)
    requires Inv(cfg, s) && SeesClosed(s, g) && Enabled(cfg, s, step)
    ensures var t := Apply(cfg, s, step);
            SeesClosed(t, g) && t.queues[t.receivers[g]] == s.queues[s.receivers[g]]
  {
    hide Delivered, Sourced, InOrder, OneAtATime, Flowing;
    var t := Apply(cfg, s, step);
    var q := s.receivers[g];
    forall c | 0 <= c < |t.calls|
      ensures !StillSending(t, c, q)
    {
      NoNewHolder(cfg, s, step, g, c);
    }
    if step.Send? {
      assert q !in s.calls[step.call].targets;
    }
  }

  /** Closed is final: once a consumer sees it, everything the group ever accepted has been consumed, for good. */
  lemma {:induction false} ClosedIsFinal(cfg: Config, s: State, steps: seq<Step>, g: Group)
    requires Inv(cfg, s) && SeesClosed(s, g) && Possible(cfg, s, steps)
    ensures var t := Run(cfg, s, steps);
            && SeesClosed(t, g)
            && t.queues[t.receivers[g]] == s.queues[s.receivers[g]]
            && |t.queues[t.receivers[g]].consumed| == |t.queues[t.receivers[g]].accepted|
    decreases |steps|
  {
    if steps == [] {
      assert Flowing(cfg, s.queues[s.receivers[g]]);
    } else {
      hide Inv, Apply, SeesClosed;
      StepKeeps(cfg, s, steps[0]);
      StepAfterClosed(cfg, s, steps[0], g);
      ClosedIsFinal(cfg, Apply(cfg, s, steps[0]), steps[1..], g);
    }
  }

  /**
   * A group that exists when the senders are cleared has a sender later exactly when its creator had not yet
   * stored it at the clear and has stored it since.
   */
  lemma {:induction false} ReopensOnlyIfPending(cfg: Config, s: State, steps: seq<Step>, g: Group)
    requires Inv(cfg, s) && Possible(cfg, s, steps) && Close !in steps
    requires g in s.receivers && g !in s.senders
    ensures var t := Run(cfg, s, steps);
            g in t.senders <==> g in s.pending && g !in t.pending
    decreases |steps|
  {
    if steps != [] {
      var s1 := Apply(cfg, s, steps[0]);
      assert steps[0] in steps;
      StepKeeps(cfg, s, steps[0]);
      SenderStep(cfg, s, steps[0], g);
      hide Apply, Enabled, Inv;
      if g in s1.senders {
        KeepsSender(cfg, s1, steps[1..], g);
      } else {
        ReopensOnlyIfPending(cfg, s1, steps[1..], g);
      }
    }
  }

  /** A group whose creation is overtaken by the clear: it ends up with the only sender there is. */
  lemma ReopenedByCreator(cfg: Config, s: State, g: Group)
    requires Inv(cfg, s) && g !in s.receivers
    ensures Possible(cfg, s, [Reserve(g), Close, Install(g)])
    ensures Run(cfg, s, [Reserve(g), Close]).senders == map[]
    ensures Run(cfg, s, [Reserve(g), Close, Install(g)]).senders == map[g := |s.queues|]
  {
    var s1 := Apply(cfg, s, Reserve(g));
    var s2 := Apply(cfg, s1, Close);
    assert [Reserve(g), Close, Install(g)][1..] == [Close, Install(g)];
    assert [Close, Install(g)][1..] == [Install(g)];
    assert [Reserve(g), Close][1..] == [Close];
    var s3 := Apply(cfg, s2, Install(g));
    assert [Install(g)][1..] == [] && [Close][1..] == [];
    assert Possible(cfg, s3, []) && Run(cfg, s3, []) == s3;
    assert Possible(cfg, s2, [Install(g)]) && Run(cfg, s2, [Install(g)]) == s3;
    assert Possible(cfg, s1, [Close, Install(g)]) && Possible(cfg, s1, [Close]);
  }

  /** Only storing the pending sender of a group gives the group one, and only a clear takes it away. */
  lemma SenderStep(cfg: Config, s: State, step: Step, g: Group)
    requires Inv(cfg, s) && Enabled(cfg, s, step) && !step.Close? && g in s.receivers
    ensures var t := Apply(cfg, s, step);
            && g in t.receivers
            && (g in t.senders <==> g in s.senders || step == Install(g))
            && (g in t.pending <==> g in s.pending && step != Install(g))
            && (g in t.senders ==> g !in t.pending)
  {
    hide Flowing, Sourced, InOrder, CallFits, Delivered, OneAtATime;
  }

  lemma {:induction false} KeepsSender(cfg: Config, s: State, steps: seq<Step>, g: Group)
    requires Inv(cfg, s) && Possible(cfg, s, steps) && Close !in steps && g in s.receivers && g in s.senders
    ensures g in Run(cfg, s, steps).senders && g !in Run(cfg, s, steps).pending
    decreases |steps|
  {
    if steps == [] {
    } else {
      assert steps[0] in steps;
      StepKeeps(cfg, s, steps[0]);
      SenderStep(cfg, s, steps[0], g);
      hide Apply, Enabled, Inv;
      KeepsSender(cfg, Apply(cfg, s, steps[0]), steps[1..], g);
    }
  }

  lemma StillNoSender(cfg: Config, s: State, step: Step, g: Group)
    requires Inv(cfg, s) && Enabled(cfg, s, step) && g in s.receivers && g !in s.senders && g !in s.pending
    ensures var t := Apply(cfg, s, step); g in t.receivers && g !in t.senders && g !in t.pending
  {
    hide Delivered, Sourced, InOrder, OneAtATime, Flowing, CallFits;
  }

  /**
   * After the senders are cleared, a group created before only accepts from calls that had already cloned its sender.
   */
  lemma {:induction false} LateMessages(cfg: Config, s: State, steps: seq<Step>, g: Group)
    requires Inv(cfg, s) && Possible(cfg, s, steps)
    requires g in s.receivers && g !in s.senders && g !in s.pending
    ensures var t := Run(cfg, s, steps);
            var q := s.receivers[g];
            && g in t.receivers && t.receivers[g] == q && q < |s.queues| <= |t.queues|
            && s.queues[q].accepted <= t.queues[q].accepted
            && (forall i :: |s.queues[q].accepted| <= i < |t.queues[q].accepted| ==>
                StillSending(s, t.queues[q].accepted[i].call, q))
    decreases |steps|
  {
    if steps != [] {
      var s1 := Apply(cfg, s, steps[0]);
      StillNoSender(cfg, s, steps[0], g);
      StepKeeps(cfg, s, steps[0]);
      hide Apply, Enabled, StillSending, Inv;
      LateMessages(cfg, s1, steps[1..], g);
      forall c: nat | StillSending(s1, c, s.receivers[g])
        ensures StillSending(s, c, s.receivers[g])
      {
        NoNewHolder(cfg, s, steps[0], g, c);
      }
      AcceptedFrom(cfg, s, steps[0], s.receivers[g]);
      var now, mid, end := s.queues[s.receivers[g]].accepted, s1.queues[s.receivers[g]].accepted,
        Run(cfg, s, steps).queues[s.receivers[g]].accepted;
      forall i | |now| <= i < |end|
        ensures StillSending(s, end[i].call, s.receivers[g])
      {
        if i < |mid| {
          assert end[i] == mid[i];
        }
      }
    }
  }

  /** A step adds to a queue only the message of the call that sends. */
  lemma AcceptedFrom(cfg: Config, s: State, step: Step, q: nat)
    requires Inv(cfg, s) && Enabled(cfg, s, step) && q < |s.queues|
    ensures var acc := Apply(cfg, s, step).queues[q].accepted;
            && s.queues[q].accepted <= acc
            && forall i :: |s.queues[q].accepted| <= i < |acc| ==> StillSending(s, acc[i].call, q)
  {
    hide Delivered, Sourced, InOrder, OneAtATime, Flowing, CallFits, Wired;
  }

  // ---- Draining ----------------------------------------------------------------------------------------------------

  /** Steps that move what is already on its way. */
  predicate Drains(step: Step) {
    step.Send? || step.Return? || step.GiveUp? || step.Take?
  }

  /** Sends and returns still owed by the calls, a send counting twice. */
  function Owed(calls: seq<Call>): nat {
    if calls == [] then 0 else
      var c := calls[|calls| - 1];
      Owed(calls[..|calls| - 1]) + if c.status.Sending? && c.sent <= |c.targets| then 2 * (|c.targets| - c.sent) + 1
        else 0
  }

  function Queued(queues: seq<Queue>): nat {
    if queues == [] then 0 else Queued(queues[..|queues| - 1]) + |queues[|queues| - 1].buffer|
  }

  function Load(s: State): nat {
    Owed(s.calls) + Queued(s.queues)
  }

  lemma {:induction false} OwedUpdate(calls: seq<Call>, c: nat, call: Call)
    requires c < |calls|
    ensures Owed(calls[c := call]) == Owed(calls) - Owed([calls[c]]) + Owed([call])
  {
    var last := |calls| - 1;
    if c == last {
      assert calls[c := call][..last] == calls[..last];
    } else {
      OwedUpdate(calls[..last], c, call);
      assert calls[c := call][..last] == calls[..last][c := call];
    }
  }

  lemma {:induction false} QueuedUpdate(queues: seq<Queue>, q: nat, queue: Queue)
    requires q < |queues|
    ensures Queued(queues[q := queue]) == Queued(queues) - |queues[q].buffer| + |queue.buffer|
  {
    var last := |queues| - 1;
    if q == last {
      assert queues[q := queue][..last] == queues[..last];
    } else {
      QueuedUpdate(queues[..last], q, queue);
      assert queues[q := queue][..last] == queues[..last][q := queue];
    }
  }

  lemma DrainStep(cfg: Config, s: State, step: Step)
    requires Inv(cfg, s) && Enabled(cfg, s, step) && Drains(step)
    ensures Load(Apply(cfg, s, step)) < Load(s)
    ensures Apply(cfg, s, step).senders == s.senders && Apply(cfg, s, step).pending == s.pending
  {
    hide Flowing, Sourced, InOrder, Delivered, OneAtATime, CallFits, Wired;
    var t := Apply(cfg, s, step);
    match step {
      case Send(c) =>
        var q := s.calls[c].targets[s.calls[c].sent];
        OwedUpdate(s.calls, c, t.calls[c]);
        QueuedUpdate(s.queues, q, t.queues[q]);
      case Return(c) => OwedUpdate(s.calls, c, t.calls[c]);
      case GiveUp(c, _) => OwedUpdate(s.calls, c, t.calls[c]);
      case Take(g, _) => QueuedUpdate(s.queues, s.receivers[g], t.queues[s.receivers[g]]);
    }
  }

  /** What is on its way runs out: no schedule of draining steps is longer than the load. */
  lemma {:induction false} DrainEnds(cfg: Config, s: State, steps: seq<Step>)
    requires Inv(cfg, s) && Possible(cfg, s, steps) && forall step :: step in steps ==> Drains(step)
    ensures |steps| + Load(Run(cfg, s, steps)) <= Load(s)
    decreases |steps|
  {
    if steps == [] {
    } else {
      hide Inv, Apply, Enabled, Load;
      StepKeeps(cfg, s, steps[0]);
      assert steps[0] in steps;
      DrainStep(cfg, s, steps[0]);
      DrainEnds(cfg, Apply(cfg, s, steps[0]), steps[1..]);
    }
  }

  /** And it cannot get stuck: with all senders gone, either every group sees Closed or a draining step is possible. */
  lemma DrainProceeds(cfg: Config, s: State)
    requires Inv(cfg, s) && cfg.capacity > 0 && s.senders == map[] && s.pending == map[]
    ensures (forall g :: g in s.receivers ==> SeesClosed(s, g)) || exists step :: Drains(step) && Enabled(cfg, s, step)
  {
    hide Flowing, Sourced, InOrder, Delivered, OneAtATime;
    if g :| g in s.receivers && !SeesClosed(s, g) {
      if s.queues[s.receivers[g]].buffer != [] {
        assert Enabled(cfg, s, Take(g, 0));
      } else {
        var c :| 0 <= c < |s.calls| && s.calls[c].status.Sending? && s.receivers[g] in s.calls[c].targets;
        assert CallFits(s, s.calls[c]);
        if s.calls[c].sent == |s.calls[c].targets| {
          assert Enabled(cfg, s, Return(c));
        } else {
          var q := s.calls[c].targets[s.calls[c].sent];
          if HasRoom(cfg, s.queues[q]) {
            assert Enabled(cfg, s, Send(c));
          } else {
            assert HasGroup(s, q);
            var h :| h in s.receivers && s.receivers[h] == q;
            assert Enabled(cfg, s, Take(h, 0));
          }
        }
      }
    }
  }
}
