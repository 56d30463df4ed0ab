/** The bus: subscriptions become groups before start returns, and shutdown closes every channel. */
module Bus {
  import opened Channel
  import opened ChannelGuarantees
  import opened Wrappers

  datatype Subscription = Subscription(channel: string, component: Group)

  /** A spawned dispatcher. */
  datatype Handle = Handle(channel: string, group: Group, concurrency: nat)

  const DEFAULT_CAPACITY := 256
  const DEFAULT_TIMEOUT := 30_000

  function Handles(subs: seq<Subscription>): (r: seq<Handle>)
    ensures |r| == |subs|
  {
    seq(|subs|, i requires 0 <= i < |subs| => Handle(subs[i].channel, subs[i].component, 1))
  }

  ghost predicate AllSound(cfg: Config, registry: map<string, State>) {
    forall n :: n in registry ==> Inv(cfg, registry[n])
  }

  /** No channel has been closed and no group is half registered. */
  ghost predicate Open(registry: map<string, State>) {
    forall n, g :: n in registry && g in registry[n].receivers ==> g in registry[n].senders
  }

  /** Messages published on this channel reach this component. */
  predicate Hears(registry: map<string, State>, sub: Subscription) {
    && sub.channel in registry
    && sub.component in registry[sub.channel].receivers && sub.component in registry[sub.channel].senders
  }

  /** Look up or create the channel, then register the subscriber's group. */
  function Subscribed(cfg: Config, registry: map<string, State>, sub: Subscription): map<string, State> {
    registry[sub.channel := Registered(cfg, if sub.channel in registry then registry[sub.channel]
                                       else EMPTY, sub.component)]
  }

  lemma SubscribedHears(cfg: Config, registry: map<string, State>, sub: Subscription)
    requires AllSound(cfg, registry) && Open(registry)
    ensures var after := Subscribed(cfg, registry, sub);
            && AllSound(cfg, after) && Open(after) && Hears(after, sub)
            && forall other :: Hears(registry, other) ==> Hears(after, other)
  {
    hide Inv, Registered;
    EmptySound(cfg);
    RegisteredSound(cfg, if sub.channel in registry then registry[sub.channel] else EMPTY, sub.component);
  }

  class GenericBus {
    const cfg: Config
    var registry: map<string, State>
    var subscriptions: seq<Subscription>
    var hasInvoker: bool
    var handles: seq<Handle>

    ghost predicate Valid()
      reads this
    {
      AllSound(cfg, registry)
    }

    constructor ()
      ensures Valid() && Open(registry) && registry == map[] && subscriptions == [] && handles == [] && !hasInvoker
    {
      cfg := Config(DEFAULT_CAPACITY, DEFAULT_TIMEOUT);
      registry, subscriptions, hasInvoker, handles := map[], [], false, [];
    }

    method AddSubscription(sub: Subscription)
      modifies this`subscriptions
      ensures subscriptions == old(subscriptions) + [sub]
    {
      subscriptions := subscriptions + [sub];
    }

    method SetInvoker()
      modifies this`hasInvoker
      ensures hasInvoker
    {
      hasInvoker := true;
    }

    /**
     * Creates missing channels, registers each subscriber's group, and spawns one dispatcher for each. A
     * subscription whose component is not in `activates` stops the start: its group exists, but nothing serves it.
     */
    method Start(activates: set<Subscription>) returns (r: Result<(), string>)
      requires Valid() && Open(registry)
      modifies this
      ensures Valid() && Open(registry)
      ensures r.Success? <==> old(hasInvoker) && forall sub :: sub in old(subscriptions) ==> sub in activates
      ensures !old(hasInvoker) ==>
                subscriptions == old(subscriptions) && handles == old(handles) && registry == old(registry)
      ensures old(hasInvoker) ==> subscriptions == []
      ensures r.Success? ==> handles == old(handles) + Handles(old(subscriptions))
      ensures r.Success? ==> forall sub :: sub in old(subscriptions) ==> Hears(registry, sub)
      ensures old(hasInvoker) && r.Failure? ==>
                exists k :: 0 <= k < |old(subscriptions)| && old(subscriptions)[k] !in activates
                            && handles == old(handles) + Handles(old(subscriptions)[..k])
                            && forall i :: 0 <= i <= k ==> Hears(registry, old(subscriptions)[i])
    {
      hide Handles, AllSound, Open, Hears, Subscribed;
      HandlesOfNone();
      if !hasInvoker {
        return Failure("invoker not set before start");
      }
      var subs := subscriptions;
      subscriptions := [];
      for i := 0 to |subs|
        invariant Valid() && Open(registry) && subscriptions == []
        invariant handles == old(handles) + Handles(subs[..i])
        invariant forall j :: 0 <= j < i ==> subs[j] in activates && Hears(registry, subs[j])
      {
        var sub := subs[i];
        SubscribedHears(cfg, registry, sub);
        registry := Subscribed(cfg, registry, sub);
        if sub !in activates {
          assert subs[i] == sub && sub in subs;
          return Failure("component cannot be activated");
        }
        handles := handles + [Handle(sub.channel, sub.component, 1)];
        HandlesGrow(subs, i);
      }
      assert subs[..|subs|] == subs;
      r := Success(());
    }

    /** Closes every channel. */
    method Shutdown()
      requires Valid()
      modifies this`registry
      ensures Valid() && registry.Keys == old(registry).Keys
      ensures forall n :: n in registry ==> registry[n] == old(registry)[n].(senders := map[])
    {
      hide Inv;
      var names := registry.Keys;
      while names != {}
        invariant registry.Keys == old(registry).Keys && names <= registry.Keys && Valid()
        invariant forall n :: n in names ==> registry[n] == old(registry)[n]
        invariant forall n :: n in registry && n !in names ==> registry[n] == old(registry)[n].(senders := map[])
        decreases |names|
      {
        var n :| n in names;
        CloseSound(cfg, registry[n]);
        registry := registry[n := registry[n].(senders := map[])];
        names := names - {n};
      }
    }
  }

  lemma EmptySound(cfg: Config)
    ensures Inv(cfg, EMPTY) && EMPTY.receivers == map[]
  {
  }

  lemma CloseSound(cfg: Config, s: State)
    requires Inv(cfg, s)
    ensures Inv(cfg, s.(senders := map[]))
  {
    StepKeeps(cfg, s, Step.Close);
  }

  /** Registering a group keeps the other groups and gives this one a sender, unless it was registered before. */
  lemma RegisteredSound(cfg: Config, s: State, g: Group)
    requires Inv(cfg, s)
    ensures var t := Registered(cfg, s, g);
            && Inv(cfg, t) && g in t.receivers && (g !in s.receivers ==> g in t.senders)
            && (forall h :: h in s.receivers ==> h in t.receivers)
            && (forall h :: h in s.senders ==> h in t.senders)
            && (forall h :: h in t.receivers ==> h == g || h in s.receivers)
  {
    hide Inv;
    if g !in s.receivers {
      StepKeeps(cfg, s, Reserve(g));
      StepKeeps(cfg, Apply(cfg, s, Reserve(g)), Install(g));
    }
  }

  lemma HandlesOfNone()
    ensures Handles([]) == []
  {
  }

  lemma HandlesGrow(subs: seq<Subscription>, i: nat)
    requires i < |subs|
    ensures Handles(subs[..i + 1]) == Handles(subs[..i]) + [Handle(subs[i].channel, subs[i].component, 1)]
  {
  }

  /**
   * A subscriber that a channel had when start returned gets every message whose publish returns Ok before the
   * channel is closed, exactly once, whatever else happens meanwhile.
   */
  lemma SubscriberHears(cfg: Config, started: State, waiting: seq<Step>, begin: Step, after: seq<Step>, g: Group)
    requires Inv(cfg, started) && g in started.senders && g in started.receivers
    requires Possible(cfg, started, waiting) && Step.Close !in waiting
    requires begin.Begin? && Enabled(cfg, Run(cfg, started, waiting), begin)
    requires Possible(cfg, Apply(cfg, Run(cfg, started, waiting), begin), after)
    ensures var s := Run(cfg, started, waiting);
            var t := Run(cfg, Apply(cfg, s, begin), after);
            && |s.calls| < |t.calls| && g in t.receivers && t.receivers[g] == started.receivers[g] < |t.queues|
            && (t.calls[|s.calls|].status.Sent? ==> Copies(t.queues[t.receivers[g]].accepted, |s.calls|) == 1)
  {
    hide Inv, Apply, Enabled;
    KeepsSender(cfg, started, waiting, g);
    RunKeeps(cfg, started, waiting);
    var s := Run(cfg, started, waiting);
    StepKeeps(cfg, s, begin);
    RunKeeps(cfg, Apply(cfg, s, begin), after);
    FanOut(cfg, s, begin, after, g);
  }
}
