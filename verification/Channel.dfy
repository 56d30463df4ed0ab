/** The blocking local channel: one bounded queue per consumer group, and publishers that send one group at a time. */
module Channel {
  import opened Wrappers

  type Group = string
  type Message = string

  /** A copy of a message; `call` tells which publish put it there. */
  datatype Item = Item(call: nat, msg: Message)

  /** A copy handed to a consumer. */
  datatype Taken = Taken(item: Item, taker: nat)

  /** A bounded queue. `accepted` and `consumed` record all that ever went in and out. */
  datatype Queue = Queue(buffer: seq<Item>, accepted: seq<Item>, consumed: seq<Taken>)

  /** A timeout in milliseconds: negative waits forever, zero never waits. */
  datatype Config = Config(capacity: nat, publishTimeout: int)

  datatype PublishError = NoReceivers | Full | TimedOut | Dropped

  datatype Status = Sending | Sent | Refused(error: PublishError)

  /** One `publish`: the queues whose senders it cloned, in its iteration order, and how many it has sent to. */
  datatype Call = Call(who: nat, msg: Message, targets: seq<nat>, sent: nat, status: Status)

  /**
   * `receivers` and `senders` are the two locked maps. `pending` holds the senders of groups whose
   * creator has registered the receiver but not yet the sender.
   */
  datatype State = State(queues: seq<Queue>, receivers: map<Group, nat>, senders: map<Group, nat>,
                         pending: map<Group, nat>, calls: seq<Call>)

  const EMPTY := State([], map[], map[], map[], [])

  // ---- Steps ------------------------------------------------------------------------------------------

  /** What one thread does without letting go of a lock, or one send, or one receive. */
  datatype Step =
    | Reserve(group: Group)
    | Install(group: Group)
    | Close
    | Begin(who: nat, msg: Message, order: seq<Group>)
    | Send(call: nat)
    | Return(call: nat)
    | GiveUp(call: nat, error: PublishError)
    | Take(group: Group, taker: nat)

  /** An iteration order of a map's keys. */
  predicate Orders(order: seq<Group>, m: map<Group, nat>) {
    && (forall i, j :: 0 <= i < j < |order| ==> order[i] != order[j])
    && (forall g :: g in order ==> g in m)
    && (forall g :: g in m ==> g in order)
  }

  predicate Busy(s: State, who: nat) {
    exists c :: 0 <= c < |s.calls| && s.calls[c].who == who && s.calls[c].status.Sending?
  }

  predicate Unfinished(s: State, c: nat) {
    && c < |s.calls| && s.calls[c].status.Sending? && s.calls[c].sent < |s.calls[c].targets|
    && s.calls[c].targets[s.calls[c].sent] < |s.queues|
  }

  predicate HasRoom(cfg: Config, q: Queue) {
    |q.buffer| < cfg.capacity
  }

  predicate Enabled(cfg: Config, s: State, step: Step) {
    match step
    case Reserve(_) => true
    case Install(g) => g in s.pending
    case Close => true
    case Begin(who, _, order) => Orders(order, s.senders) && !Busy(s, who)
    case Send(c) => Unfinished(s, c) && HasRoom(cfg, s.queues[s.calls[c].targets[s.calls[c].sent]])
    case Return(c) => c < |s.calls| && s.calls[c].status.Sending? && s.calls[c].sent == |s.calls[c].targets|
    case GiveUp(c, e) =>
      && Unfinished(s, c)
      && !e.NoReceivers?
      && (e.Full? ==> cfg.publishTimeout == 0 && !HasRoom(cfg, s.queues[s.calls[c].targets[s.calls[c].sent]]))
      && (e.TimedOut? ==> cfg.publishTimeout > 0)
    case Take(g, _) => g in s.receivers && s.receivers[g] < |s.queues| && s.queues[s.receivers[g]].buffer != []
  }

  function Put(q: Queue, item: Item): Queue {
    Queue(q.buffer + [item], q.accepted + [item], q.consumed)
  }

  function Pop(q: Queue, taker: nat): Queue
    requires q.buffer != []
  {
    Queue(q.buffer[1..], q.accepted, q.consumed + [Taken(q.buffer[0], taker)])
  }

  function Targets(order: seq<Group>, m: map<Group, nat>): (r: seq<nat>)
    requires forall g :: g in order ==> g in m
    ensures |r| == |order| && forall i :: 0 <= i < |r| ==> r[i] == m[order[i]]
  {
    seq(|order|, i requires 0 <= i < |order| => m[order[i]])
  }

  function Apply(cfg: Config, s: State, step: Step): State
    requires Enabled(cfg, s, step)
  {
    match step
    case Reserve(g) =>
      if g in s.receivers then s
      else s.(queues := s.queues + [Queue([], [], [])], receivers := s.receivers[g := |s.queues|],
              pending := s.pending[g := |s.queues|])
    case Install(g) => s.(senders := s.senders[g := s.pending[g]], pending := s.pending - {g})
    case Close => s.(senders := map[])
    case Begin(who, msg, order) =>
      s.(calls := s.calls + [Call(who, msg, Targets(order, s.senders), 0,
                                  if order == [] then Refused(NoReceivers) else Sending)])
    case Send(c) =>
      var call := s.calls[c];
      var q := call.targets[call.sent];
      s.(queues := s.queues[q := Put(s.queues[q], Item(c, call.msg))],
         calls := s.calls[c := call.(sent := call.sent + 1)])
    case Return(c) => s.(calls := s.calls[c := s.calls[c].(status := Sent)])
    case GiveUp(c, e) => s.(calls := s.calls[c := s.calls[c].(status := Refused(e))])
    case Take(g, taker) => s.(queues := s.queues[s.receivers[g] := Pop(s.queues[s.receivers[g]], taker)])
  }

  /** Registering a group with nobody in between. */
  function Registered(cfg: Config, s: State, g: Group): State {
    if g in s.receivers then s else Apply(cfg, Apply(cfg, s, Reserve(g)), Install(g))
  }

  /** A schedule: one step of any thread after another. */
  predicate Possible(cfg: Config, s: State, steps: seq<Step>)
    decreases |steps|
  {
    steps != [] ==> Enabled(cfg, s, steps[0]) && Possible(cfg, Apply(cfg, s, steps[0]), steps[1..])
  }

  function Run(cfg: Config, s: State, steps: seq<Step>): State
    requires Possible(cfg, s, steps)
    decreases |steps|
  {
    if steps == [] then s else Run(cfg, Apply(cfg, s, steps[0]), steps[1..])
  }

  // ---- What every step keeps ----------------------------------------------------------------------------

  predicate HasGroup(s: State, q: nat) {
    exists g :: g in s.receivers && s.receivers[g] == q
  }

  /** One queue for each group and one group for each queue; a sender, if any, feeds its group's queue. */
  ghost predicate Wired(s: State) {
    && (forall g :: g in s.receivers ==> s.receivers[g] < |s.queues|)
    && (forall q :: 0 <= q < |s.queues| ==> HasGroup(s, q))
    && (forall g, h :: g in s.receivers && h in s.receivers && s.receivers[g] == s.receivers[h] ==> g == h)
    && (forall g :: g in s.senders ==> g in s.receivers && s.senders[g] == s.receivers[g] && g !in s.pending)
    && (forall g :: g in s.pending ==> g in s.receivers && s.pending[g] == s.receivers[g])
  }

  predicate Flowing(cfg: Config, q: Queue) {
    && |q.buffer| <= cfg.capacity
    && |q.accepted| == |q.consumed| + |q.buffer|
    && (forall i :: 0 <= i < |q.consumed| ==> q.consumed[i].item == q.accepted[i])
    && q.buffer == q.accepted[|q.consumed|..]
  }

  predicate CallFits(s: State, c: Call) {
    && c.sent <= |c.targets|
    && (forall i :: 0 <= i < |c.targets| ==> c.targets[i] < |s.queues|)
    && (forall i, j :: 0 <= i < j < |c.targets| ==> c.targets[i] != c.targets[j])
    && (c.status.Sending? ==> c.targets != [])
    && (c.status.Sent? ==> c.sent == |c.targets| > 0)
    && (c.status.Refused? ==> c.targets == [] || c.sent < |c.targets|)
    && (c.status.Refused? && c.status.error.NoReceivers? <==> c.targets == [])
  }

  /** A publisher is in one call at a time. */
  predicate OneAtATime(s: State) {
    forall a, b :: 0 <= a < b < |s.calls| && s.calls[a].who == s.calls[b].who ==> !s.calls[a].status.Sending?
  }

  /** Every copy in queue `q` was put there by a call that has sent to it, and no call put two. */
  predicate Sourced(s: State, q: nat)
    requires q < |s.queues|
  {
    var acc := s.queues[q].accepted;
    && (forall i :: 0 <= i < |acc| ==>
          && acc[i].call < |s.calls|
          && acc[i].msg == s.calls[acc[i].call].msg
          && s.calls[acc[i].call].sent <= |s.calls[acc[i].call].targets|
          && q in s.calls[acc[i].call].targets[..s.calls[acc[i].call].sent])
    && (forall i, j :: 0 <= i < j < |acc| ==> acc[i].call != acc[j].call)
  }

  /** Every call has put its message in each queue it has sent to. */
  predicate Delivered(s: State, c: nat)
    requires c < |s.calls|
  {
    forall k :: 0 <= k < s.calls[c].sent && k < |s.calls[c].targets| && s.calls[c].targets[k] < |s.queues| ==>
                  Item(c, s.calls[c].msg) in s.queues[s.calls[c].targets[k]].accepted
  }

  /** One publisher's messages stand in each queue in the order they were published. */
  predicate InOrder(s: State, q: nat)
    requires q < |s.queues|
  {
    var acc := s.queues[q].accepted;
    forall i, j :: 0 <= i < j < |acc| && acc[i].call < |s.calls| && acc[j].call < |s.calls|
                   && s.calls[acc[i].call].who == s.calls[acc[j].call].who ==>
                     acc[i].call < acc[j].call
  }

  ghost predicate Inv(cfg: Config, s: State) {
    && Wired(s)
    && OneAtATime(s)
    && (forall q :: 0 <= q < |s.queues| ==> Flowing(cfg, s.queues[q]) && Sourced(s, q) && InOrder(s, q))
    && (forall c :: 0 <= c < |s.calls| ==> CallFits(s, s.calls[c]) && Delivered(s, c))
  }

  /** What no step takes back. */
  ghost predicate Extends(s: State, t: State) {
    && (forall g :: g in s.receivers ==> g in t.receivers && t.receivers[g] == s.receivers[g])
    && |s.queues| <= |t.queues|
    && (forall q :: 0 <= q < |s.queues| ==>
        s.queues[q].accepted <= t.queues[q].accepted && s.queues[q].consumed <= t.queues[q].consumed)
    && |s.calls| <= |t.calls|
    && (forall c :: 0 <= c < |s.calls| ==> CallExtends(s.calls[c], t.calls[c]))
  }

  predicate CallExtends(a: Call, b: Call) {
    && b.who == a.who && b.msg == a.msg && b.targets == a.targets && a.sent <= b.sent
    && (!a.status.Sending? ==> b == a)
  }

  // ---- Every step keeps the invariant -----------------------------------------------------------------------

  lemma StepWired(cfg: Config, s: State, step: Step)
    requires Inv(cfg, s) && Enabled(cfg, s, step)
    ensures Wired(Apply(cfg, s, step))
  {
    hide CallFits, Delivered, Sourced, InOrder, Flowing, OneAtATime, HasGroup, Busy, Orders, HasRoom, Put, Pop, Targets;
    var t := Apply(cfg, s, step);
    forall q | 0 <= q < |t.queues|
      ensures HasGroup(t, q)
    {
      StepHasGroup(cfg, s, step, q);
    }
    if !step.Reserve? {
      MapsKept(cfg, s, step);
      hide Apply;
    }
  }

  /** Only a creator registers a group, and only storing its sender gives the group one. */
  lemma MapsKept(cfg: Config, s: State, step: Step)
    requires Enabled(cfg, s, step) && !step.Reserve?
    ensures var t := Apply(cfg, s, step);
            && t.receivers == s.receivers && |t.queues| == |s.queues|
            && (forall g :: g in t.senders ==>
                  || (g in s.senders && t.senders[g] == s.senders[g] && (g in t.pending ==> g in s.pending))
                  || (g in s.pending && t.senders[g] == s.pending[g] && g !in t.pending))
            && (forall g :: g in t.pending ==> g in s.pending && t.pending[g] == s.pending[g])
  {
  }

  lemma StepHasGroup(cfg: Config, s: State, step: Step, q: nat)
    requires Inv(cfg, s) && Enabled(cfg, s, step) && q < |Apply(cfg, s, step).queues|
    ensures HasGroup(Apply(cfg, s, step), q)
  {
    hide CallFits, Delivered, Sourced, InOrder, Flowing, OneAtATime;
    var t := Apply(cfg, s, step);
    if q < |s.queues| {
      assert HasGroup(s, q);
      var g :| g in s.receivers && s.receivers[g] == q;
      assert g in t.receivers && t.receivers[g] == q;
    } else {
      assert step.Reserve? && t.receivers[step.group] == q;
    }
  }

  lemma StepExtends(cfg: Config, s: State, step: Step)
    requires Inv(cfg, s) && Enabled(cfg, s, step)
    ensures Extends(s, Apply(cfg, s, step))
  {
    hide Delivered, Sourced, InOrder, OneAtATime, Flowing, CallFits;
  }

  lemma StepFlowing(cfg: Config, s: State, step: Step, q: nat)
    requires Inv(cfg, s) && Enabled(cfg, s, step) && q < |Apply(cfg, s, step).queues|
    ensures Flowing(cfg, Apply(cfg, s, step).queues[q])
  {
    hide CallFits, Delivered, Sourced, InOrder, OneAtATime;
    if q < |s.queues| {
      assert Flowing(cfg, s.queues[q]);
    }
  }

  lemma StepCallFits(cfg: Config, s: State, step: Step, c: nat)
    requires Inv(cfg, s) && Enabled(cfg, s, step) && c < |Apply(cfg, s, step).calls|
    ensures CallFits(Apply(cfg, s, step), Apply(cfg, s, step).calls[c])
  {
    hide Delivered, Sourced, InOrder, OneAtATime, Flowing;
    if c < |s.calls| {
      assert CallFits(s, s.calls[c]);
    }
  }

  lemma StepOneAtATime(cfg: Config, s: State, step: Step)
    requires Inv(cfg, s) && Enabled(cfg, s, step)
    ensures OneAtATime(Apply(cfg, s, step))
  {
    hide Delivered, Sourced, InOrder, Flowing, CallFits, Wired;
  }

  lemma StepDelivered(cfg: Config, s: State, step: Step, c: nat)
    requires Inv(cfg, s) && Enabled(cfg, s, step) && c < |Apply(cfg, s, step).calls|
    ensures Delivered(Apply(cfg, s, step), c)
  {
    hide Sourced, InOrder, OneAtATime, Flowing, Wired;
    if c < |s.calls| {
      assert Delivered(s, c) && CallFits(s, s.calls[c]);
    }
  }

  /** A call has not yet sent to its next target. */
  lemma CallFitsSend(s: State, c: Call)
    requires CallFits(s, c) && c.sent < |c.targets|
    ensures c.targets[c.sent] !in c.targets[..c.sent]
  {
  }

  lemma StepSourced(cfg: Config, s: State, step: Step, q: nat)
    requires Inv(cfg, s) && Enabled(cfg, s, step) && q < |Apply(cfg, s, step).queues|
    ensures Sourced(Apply(cfg, s, step), q)
  {
    hide InOrder, OneAtATime, Flowing, Wired, Delivered, CallFits;
    if q < |s.queues| {
      assert Sourced(s, q);
      if step.Send? {
        var call := s.calls[step.call];
        assert call.targets[call.sent] !in call.targets[..call.sent] by {
          CallFitsSend(s, call);
        }
        assert call.targets[..call.sent + 1] == call.targets[..call.sent] + [call.targets[call.sent]];
      }
    }
  }

  /** The copies of a publisher already in the queue it sends to next come from its earlier calls. */
  lemma NewestCall(cfg: Config, s: State, c: nat, q: nat)
    requires Inv(cfg, s) && Unfinished(s, c) && s.calls[c].targets[s.calls[c].sent] == q
    ensures forall i :: 0 <= i < |s.queues[q].accepted| ==>
              var a := s.queues[q].accepted[i].call;
              a < |s.calls| && (s.calls[a].who == s.calls[c].who ==> a < c)
  {
    hide Flowing, Wired, Delivered, InOrder, CallFits;
    assert Sourced(s, q);
    CallFitsSend(s, s.calls[c]);
  }

  lemma StepInOrder(cfg: Config, s: State, step: Step, q: nat)
    requires Inv(cfg, s) && Enabled(cfg, s, step) && q < |Apply(cfg, s, step).queues|
    ensures InOrder(Apply(cfg, s, step), q)
  {
    hide Flowing, Wired, Delivered, CallFits, Sourced, OneAtATime;
    var t := Apply(cfg, s, step);
    StepExtends(cfg, s, step);
    if q < |s.queues| {
      assert InOrder(s, q);
      KnownCalls(cfg, s, q);
      var acc := s.queues[q].accepted;
      assert forall i :: 0 <= i < |acc| ==> t.calls[acc[i].call].who == s.calls[acc[i].call].who;
      if step.Send? && s.calls[step.call].targets[s.calls[step.call].sent] == q {
        NewestCall(cfg, s, step.call, q);
        assert t.queues[q].accepted == acc + [Item(step.call, s.calls[step.call].msg)];
      } else {
        assert t.queues[q].accepted == acc;
      }
    }
  }

  lemma KnownCalls(cfg: Config, s: State, q: nat)
    requires Inv(cfg, s) && q < |s.queues|
    ensures forall i :: 0 <= i < |s.queues[q].accepted| ==> s.queues[q].accepted[i].call < |s.calls|
  {
    assert Sourced(s, q);
  }

  lemma StepKeeps(cfg: Config, s: State, step: Step)
    requires Inv(cfg, s) && Enabled(cfg, s, step)
    ensures Inv(cfg, Apply(cfg, s, step)) && Extends(s, Apply(cfg, s, step))
  {
    hide Apply, Enabled, Wired, OneAtATime, Flowing, Sourced, InOrder, CallFits, Delivered, Extends;
    StepWired(cfg, s, step);
    StepOneAtATime(cfg, s, step);
    StepExtends(cfg, s, step);
    var t := Apply(cfg, s, step);
    forall q | 0 <= q < |t.queues|
      ensures Flowing(cfg, t.queues[q]) && Sourced(t, q) && InOrder(t, q)
    {
      StepFlowing(cfg, s, step, q);
      StepSourced(cfg, s, step, q);
      StepInOrder(cfg, s, step, q);
    }
    forall c | 0 <= c < |t.calls|
      ensures CallFits(t, t.calls[c]) && Delivered(t, c)
    {
      StepCallFits(cfg, s, step, c);
      StepDelivered(cfg, s, step, c);
    }
  }

  /** Whatever the interleaving, the invariant holds and nothing once accepted, consumed or finished is undone. */
  lemma {:induction false} RunKeeps(cfg: Config, s: State, steps: seq<Step>)
    requires Inv(cfg, s) && Possible(cfg, s, steps)
    ensures Inv(cfg, Run(cfg, s, steps)) && Extends(s, Run(cfg, s, steps))
    decreases |steps|
  {
    hide Apply, Enabled, Inv;
    if steps == [] {
      ExtendsRefl(s);
    } else {
      StepKeeps(cfg, s, steps[0]);
      RunKeeps(cfg, Apply(cfg, s, steps[0]), steps[1..]);
      ExtendsTrans(s, Apply(cfg, s, steps[0]), Run(cfg, s, steps));
    }
  }

  lemma ExtendsRefl(s: State)
    ensures Extends(s, s)
  {
  }

  lemma ExtendsTrans(s: State, t: State, u: State)
    requires Extends(s, t) && Extends(t, u)
    ensures Extends(s, u)
  {
    forall c | 0 <= c < |s.calls|
      ensures CallExtends(s.calls[c], u.calls[c])
    {
      assert CallExtends(s.calls[c], t.calls[c]) && CallExtends(t.calls[c], u.calls[c]);
    }
  }
}
