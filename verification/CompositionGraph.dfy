/**
 * Building the graph: a node for each placed definition, an interceptor chain for each that has one, and edges for
 * imports.
 */
module CompositionGraph {
  import opened Definitions
  import opened Wrappers
  import Topology

  datatype Node = ComponentNode(component: Component) | CapabilityNode(capability: Capability)

  function NodeName(n: Node): string {
    match n
    case ComponentNode(c) => c.name
    case CapabilityNode(c) => c.name
  }

  datatype Edge = Dependency | Interceptor(position: nat)

  /** What a node stands for: a capability, or a position in a component's chain. */
  datatype Slot = CapSlot(i: nat) | CompSlot(i: nat, k: nat)

  // ---- How far the building has come ----------------------------------------------------------------------------

  /** `built[i]` interceptors of component `i` have been cloned; the names of the first `started` are taken over. */
  datatype Stage = Stage(caps: nat, built: seq<nat>, started: nat)

  predicate StageFits(comps: seq<Component>, caps: seq<Capability>, st: Stage) {
    && st.caps <= |caps| && st.started <= |st.built| <= |comps|
    && (forall i :: 0 <= i < |st.built| ==> st.built[i] <= |comps[i].interceptors|)
    && (forall i :: st.started <= i < |st.built| ==> st.built[i] == 0)
    && (forall i, k: nat :: 0 <= i < |st.built| && k <= st.built[i] ==> DefinedAt(comps, i, k))
  }

  predicate Present(comps: seq<Component>, caps: seq<Capability>, st: Stage, s: Slot)
    requires StageFits(comps, caps, st)
  {
    match s
    case CapSlot(i) => i < st.caps
    case CompSlot(i, k) => i < |st.built| && !TemplateOnly(comps, i) && k <= st.built[i]
  }

  function SlotName(comps: seq<Component>, caps: seq<Capability>, st: Stage, s: Slot): string
    requires StageFits(comps, caps, st) && Present(comps, caps, st, s)
  {
    match s
    case CapSlot(i) => caps[i].name
    case CompSlot(i, k) => if i < st.started then ChainName(comps[i], k) else comps[i].name
  }

  function SlotNode(comps: seq<Component>, caps: seq<Capability>, st: Stage, s: Slot): (n: Node)
    requires StageFits(comps, caps, st) && Present(comps, caps, st, s)
    ensures NodeName(n) == SlotName(comps, caps, st, s)
  {
    match s
    case CapSlot(i) => CapabilityNode(caps[i])
    case CompSlot(i, k) => ComponentNode(Content(comps, i, k).(name := SlotName(comps, caps, st, s)))
  }

  /** No two slots share a name. */
  lemma SlotNamesDistinct(comps: seq<Component>, caps: seq<Capability>, st: Stage, s: Slot, t: Slot)
    requires NamesValid(comps, caps) && StageFits(comps, caps, st)
    requires Present(comps, caps, st, s) && Present(comps, caps, st, t)
    ensures SlotName(comps, caps, st, s) == SlotName(comps, caps, st, t) ==> s == t
  {
    hide TemplateOnly, DefinedAt, Internal;
    BaseNames(comps, caps);
    if s.CompSlot? {
      InternalDistinct(comps[s.i].name, s.k, comps[s.i].name, s.k);
    }
    if t.CompSlot? {
      InternalDistinct(comps[t.i].name, t.k, comps[t.i].name, t.k);
    }
    if s.CompSlot? && t.CompSlot? {
      InternalDistinct(comps[s.i].name, s.k, comps[t.i].name, t.k);
    }
  }

  lemma BaseNames(comps: seq<Component>, caps: seq<Capability>)
    requires NamesValid(comps, caps)
    ensures forall i :: 0 <= i < |comps| ==> ValidName(comps[i].name)
    ensures forall i :: 0 <= i < |caps| ==> ValidName(caps[i].name)
    ensures forall i, j :: 0 <= i < |comps| && 0 <= j < |caps| ==> comps[i].name != caps[j].name
    ensures forall i, j :: 0 <= i < j < |comps| ==> comps[i].name != comps[j].name
    ensures forall i, j :: 0 <= i < j < |caps| ==> caps[i].name != caps[j].name
  {
    var names := Names(comps, caps);
    assert forall i :: 0 <= i < |comps| ==> names[|caps| + i] == comps[i].name;
    assert forall i :: 0 <= i < |caps| ==> names[i] == caps[i].name;
  }

  // ---- What the nodes and the name map must be ----------------------------------------------------------------------

  /** Node `v` stands for slot `slots[v]`, every slot of the stage has a node, and names and nodes correspond. */
  ghost predicate Shaped(comps: seq<Component>, caps: seq<Capability>, st: Stage,
                         nodes: seq<Node>, nodeMap: map<string, nat>, slots: seq<Slot>)
  {
    && StageFits(comps, caps, st)
    && |slots| == |nodes|
    && (forall v :: 0 <= v < |nodes| ==>
        Present(comps, caps, st, slots[v]) && nodes[v] == SlotNode(comps, caps, st, slots[v]))
    && (forall u, v :: 0 <= u < v < |slots| ==> slots[u] != slots[v])
    && (forall s :: Present(comps, caps, st, s) ==> s in slots)
    && Mapped(nodes, nodeMap)
  }

  /** The name map is a bijection between the nodes' names and the nodes. */
  ghost predicate Mapped(nodes: seq<Node>, nodeMap: map<string, nat>) {
    && (forall v :: 0 <= v < |nodes| ==> NodeName(nodes[v]) in nodeMap && nodeMap[NodeName(nodes[v])] == v)
    && (forall n :: n in nodeMap ==> nodeMap[n] < |nodes| && NodeName(nodes[nodeMap[n]]) == n)
  }

  /** The stage gains exactly one slot and renames nothing. */
  ghost predicate Gains(comps: seq<Component>, caps: seq<Capability>, st: Stage, next: Stage, s: Slot) {
    && StageFits(comps, caps, st) && StageFits(comps, caps, next)
    && Present(comps, caps, next, s) && !Present(comps, caps, st, s)
    && (forall t :: t != s ==> (Present(comps, caps, next, t) <==> Present(comps, caps, st, t)))
    && (forall t :: Present(comps, caps, st, t) ==> SlotNode(comps, caps, next, t) == SlotNode(comps, caps, st, t))
  }

  lemma ShapeGrows(comps: seq<Component>, caps: seq<Capability>, st: Stage, next: Stage, s: Slot,
                   nodes: seq<Node>, nodeMap: map<string, nat>, slots: seq<Slot>)
    requires NamesValid(comps, caps) && Shaped(comps, caps, st, nodes, nodeMap, slots)
              && Gains(comps, caps, st, next, s)
    ensures var node := SlotNode(comps, caps, next, s);
            && NodeName(node) !in nodeMap
            && Shaped(comps, caps, next, nodes + [node], nodeMap[NodeName(node) := |nodes|], slots + [s])
  {
    hide NamesValid, Present, SlotNode, StageFits, SlotName;
    var node := SlotNode(comps, caps, next, s);
    if NodeName(node) in nodeMap {
      var v := nodeMap[NodeName(node)];
      assert Present(comps, caps, st, slots[v]) && slots[v] != s;
      assert nodes[v] == SlotNode(comps, caps, next, slots[v]);
      SlotNamesDistinct(comps, caps, next, s, slots[v]);
      assert false;
    }
    var slots' := slots + [s];
    forall t | Present(comps, caps, next, t)
      ensures t in slots'
    {
      if t != s {
        assert t in slots;
      }
    }
  }

  /** A component's name moves to its chain's end: its own node gets the reserved name. */
  lemma ShapeRenames(comps: seq<Component>, caps: seq<Capability>, st: Stage,
                     nodes: seq<Node>, nodeMap: map<string, nat>, slots: seq<Slot>)
    requires NamesValid(comps, caps) && Shaped(comps, caps, st, nodes, nodeMap, slots)
    requires st.started < |st.built| && comps[st.started].interceptors != [] && comps[st.started].name in nodeMap
    ensures var i := st.started;
            var name := Internal(comps[i].name, 0);
            var v := nodeMap[comps[i].name];
            && v < |nodes| && v < |slots| && slots[v] == CompSlot(i, 0) && nodes[v].ComponentNode?
            && Shaped(comps, caps, st.(started := i + 1), nodes[v := ComponentNode(nodes[v].component.(name := name))],
                      (nodeMap - {comps[i].name})[name := v], slots)
  {
    hide NamesValid, StageFits, Present, SlotName, SlotNode, Internal;
    TakeoverStage(comps, caps, st);
    var i := st.started;
    var name := Internal(comps[i].name, 0);
    var v := nodeMap[comps[i].name];
    NamedBase(comps, caps, st, i, slots[v]);
    var next := st.(started := i + 1);
    Takeover(comps, caps, st, slots[v]);
    var nodes' := nodes[v := ComponentNode(nodes[v].component.(name := name))];
    forall u | 0 <= u < |nodes|
      ensures Present(comps, caps, next, slots[u]) && nodes'[u] == SlotNode(comps, caps, next, slots[u])
      ensures u != v ==> NodeName(nodes[u]) != name
    {
      Takeover(comps, caps, st, slots[u]);
      if u != v {
        SlotNamesDistinct(comps, caps, next, slots[u], slots[v]);
      }
    }
    forall s | Present(comps, caps, next, s)
      ensures s in slots
    {
      assert Present(comps, caps, st, s);
    }
  }

  lemma TakeoverStage(comps: seq<Component>, caps: seq<Capability>, st: Stage)
    requires StageFits(comps, caps, st) && st.started < |st.built|
    ensures StageFits(comps, caps, st.(started := st.started + 1)) && |st.built| <= |comps|
    ensures forall s :: Present(comps, caps, st.(started := st.started + 1), s) <==> Present(comps, caps, st, s)
  {
  }

  /** The takeover renames the component's own slot and no other. */
  lemma Takeover(comps: seq<Component>, caps: seq<Capability>, st: Stage, s: Slot)
    requires StageFits(comps, caps, st) && st.started < |st.built| && Present(comps, caps, st, s)
    requires comps[st.started].interceptors != []
    ensures var next := st.(started := st.started + 1);
            && StageFits(comps, caps, next) && Present(comps, caps, next, s)
            && SlotNode(comps, caps, next, s) ==
               if s == CompSlot(st.started, 0)
               then ComponentNode(comps[st.started].(name := Internal(comps[st.started].name, 0)))
               else SlotNode(comps, caps, st, s)
    ensures s == CompSlot(st.started, 0) ==> SlotNode(comps, caps, st, s) == ComponentNode(comps[st.started])
  {
    hide TemplateOnly, DefinedAt, Internal;
  }

  /** Before its takeover, only the component's own slot bears its name. */
  lemma NamedBase(comps: seq<Component>, caps: seq<Capability>, st: Stage, i: nat, s: Slot)
    requires NamesValid(comps, caps) && StageFits(comps, caps, st) && Present(comps, caps, st, s)
    requires st.started <= i < |st.built| && SlotName(comps, caps, st, s) == comps[i].name
    ensures s == CompSlot(i, 0)
  {
    hide TemplateOnly, DefinedAt, Internal;
    BaseNames(comps, caps);
    if s.CompSlot? {
      InternalDistinct(comps[s.i].name, s.k, comps[s.i].name, s.k);
    }
  }

  // ---- What the edges must be ------------------------------------------------------------------------------------

  predicate IsNext(s: Slot, t: Slot) {
    s.CompSlot? && t == CompSlot(s.i, s.k + 1)
  }

  /** `v` imports what `u` is named. */
  predicate ImportsFrom(nodes: seq<Node>, u: nat, v: nat)
    requires u < |nodes| && v < |nodes|
  {
    nodes[v].ComponentNode? && NodeName(nodes[u]) in nodes[v].component.imports
  }

  /** Every edge is a link of a chain or leads from what a node in `done` imports to that node. */
  ghost predicate NoStray(nodes: seq<Node>, slots: seq<Slot>, edges: map<(nat, nat), Edge>, done: set<nat>) {
    && |slots| == |nodes|
    && (forall e :: e in edges ==> e.0 < |nodes| && e.1 < |nodes|)
    && (forall e :: e in edges ==>
          if IsNext(slots[e.0], slots[e.1]) then edges[e] == Interceptor(slots[e.0].k)
          else edges[e] == Dependency && e.1 in done && ImportsFrom(nodes, e.0, e.1))
  }

  /** Each chain is linked, each node in `done` is linked to what it imports, and there is no other edge. */
  ghost predicate Linked(nodes: seq<Node>, slots: seq<Slot>, edges: map<(nat, nat), Edge>, done: set<nat>) {
    && NoStray(nodes, slots, edges, done)
    && (forall u, v :: 0 <= u < |nodes| && 0 <= v < |nodes| && IsNext(slots[u], slots[v]) ==> (u, v) in edges)
    && (forall u, v :: 0 <= u < |nodes| && 0 <= v < |nodes| && v in done && ImportsFrom(nodes, u, v) ==>
        (u, v) in edges)
  }

  /** Nothing is imported from the inside of a chain, so no link of a chain is ever overwritten. */
  lemma InsideNotImported(comps: seq<Component>, caps: seq<Capability>, st: Stage, s: Slot, t: Slot, name: string)
    requires NamesValid(comps, caps) && StageFits(comps, caps, st) && Present(comps, caps, st, s)
              && Present(comps, caps, st, t)
    requires st.started == |comps| && ValidName(name) && SlotName(comps, caps, st, s) == name
    ensures !IsNext(s, t)
  {
    if IsNext(s, t) {
      BaseNames(comps, caps);
      InternalDistinct(comps[s.i].name, s.k, comps[s.i].name, s.k);
      assert false;
    }
  }

  datatype BuildError =
    | Unplaced(i: nat)    // the source panics: a component used only as a template has interceptors of its own
    | Undefined(i: nat)   // an interceptor that is not defined
    | Cyclic

  /** A cloned interceptor is one slot more. */
  lemma GainsClone(comps: seq<Component>, caps: seq<Capability>, st: Stage, i: nat)
    requires StageFits(comps, caps, st) && i < |st.built| && st.started == i + 1 && !TemplateOnly(comps, i)
    requires st.built[i] < |comps[i].interceptors| && DefinedAt(comps, i, st.built[i] + 1)
    ensures Gains(comps, caps, st, st.(built := st.built[i := st.built[i] + 1]), CompSlot(i, st.built[i] + 1))
  {
    hide TemplateOnly, DefinedAt, Internal;
    var next := st.(built := st.built[i := st.built[i] + 1]);
    assert StageFits(comps, caps, next);
  }

  lemma GainsCapability(comps: seq<Component>, caps: seq<Capability>, st: Stage)
    requires StageFits(comps, caps, st) && st.caps < |caps|
    ensures Gains(comps, caps, st, st.(caps := st.caps + 1), CapSlot(st.caps))
  {
    hide TemplateOnly, DefinedAt, Internal;
  }

  lemma GainsComponent(comps: seq<Component>, caps: seq<Capability>, st: Stage)
    requires StageFits(comps, caps, st) && |st.built| < |comps| && !TemplateOnly(comps, |st.built|)
    ensures Gains(comps, caps, st, st.(built := st.built + [0]), CompSlot(|st.built|, 0))
  {
    hide TemplateOnly, Internal;
    assert StageFits(comps, caps, st.(built := st.built + [0]));
  }

  /** A stage with the same slots and names has the same shape. */
  lemma SameShape(comps: seq<Component>, caps: seq<Capability>, st: Stage, next: Stage,
                  nodes: seq<Node>, nodeMap: map<string, nat>, slots: seq<Slot>)
    requires Shaped(comps, caps, st, nodes, nodeMap, slots) && StageFits(comps, caps, next)
    requires forall s :: Present(comps, caps, next, s) <==> Present(comps, caps, st, s)
    requires forall s :: Present(comps, caps, st, s) ==> SlotName(comps, caps, next, s) == SlotName(comps, caps, st, s)
    ensures Shaped(comps, caps, next, nodes, nodeMap, slots)
  {
    hide TemplateOnly, DefinedAt, Internal;
  }

  lemma SkipsTemplate(comps: seq<Component>, caps: seq<Capability>, st: Stage,
                      nodes: seq<Node>, nodeMap: map<string, nat>, slots: seq<Slot>)
    requires Shaped(comps, caps, st, nodes, nodeMap, slots) && |st.built| < |comps| && TemplateOnly(comps, |st.built|)
    ensures Shaped(comps, caps, st.(built := st.built + [0]), nodes, nodeMap, slots)
  {
    hide TemplateOnly, Internal;
    SameShape(comps, caps, st, st.(built := st.built + [0]), nodes, nodeMap, slots);
  }

  lemma SkipsPlain(comps: seq<Component>, caps: seq<Capability>, st: Stage,
                   nodes: seq<Node>, nodeMap: map<string, nat>, slots: seq<Slot>)
    requires Shaped(comps, caps, st, nodes, nodeMap, slots) && st.started < |st.built|
              && comps[st.started].interceptors == []
    ensures Shaped(comps, caps, st.(started := st.started + 1), nodes, nodeMap, slots)
  {
    hide TemplateOnly, DefinedAt, Internal;
    SameShape(comps, caps, st, st.(started := st.started + 1), nodes, nodeMap, slots);
  }

  /** A component not yet taken over is in the name map exactly when it is placed. */
  lemma BaseMapped(comps: seq<Component>, caps: seq<Capability>, st: Stage, i: nat,
                   nodes: seq<Node>, nodeMap: map<string, nat>, slots: seq<Slot>)
    requires NamesValid(comps, caps) && Shaped(comps, caps, st, nodes, nodeMap, slots) && st.started <= i < |st.built|
    ensures comps[i].name in nodeMap <==> !TemplateOnly(comps, i)
  {
    hide TemplateOnly, DefinedAt, Internal, NamesValid;
    if comps[i].name in nodeMap {
      var v := nodeMap[comps[i].name];
      assert Present(comps, caps, st, slots[v]);
      NamedBase(comps, caps, st, i, slots[v]);
    }
    if !TemplateOnly(comps, i) {
      assert Present(comps, caps, st, CompSlot(i, 0));
      var v :| 0 <= v < |slots| && slots[v] == CompSlot(i, 0);
      assert nodes[v] == SlotNode(comps, caps, st, slots[v]);
    }
  }

  class ComponentGraph {
    const comps: seq<Component>
    const caps: seq<Capability>
    var nodes: seq<Node>
    var edges: map<(nat, nat), Edge>
    var nodeMap: map<string, nat>
    var clones: set<nat>
    ghost var slots: seq<Slot>
    ghost var stage: Stage

    /** Nodes, names and chain links are right for the stage. */
    ghost predicate Valid()
      reads this
    {
      && NamesValid(comps, caps) && ImportsValid(comps, caps)
      && Shaped(comps, caps, stage, nodes, nodeMap, slots)
      && (forall v :: v in clones ==> v < |nodes|)
      && (forall v :: 0 <= v < |slots| && slots[v].CompSlot? && slots[v].k > 0 ==> v in clones)
    }

    constructor (comps: seq<Component>, caps: seq<Capability>)
      requires NamesValid(comps, caps) && ImportsValid(comps, caps)
      ensures this.comps == comps && this.caps == caps && Valid()
      ensures stage == Stage(0, [], 0) && nodes == [] && edges == map[] && clones == {} && slots == []
    {
      this.comps, this.caps := comps, caps;
      nodes, edges, nodeMap, clones, slots, stage := [], map[], map[], {}, [], Stage(0, [], 0);
    }

    method AddNode(node: Node, ghost s: Slot, ghost next: Stage, isClone: bool) returns (index: nat)
      requires Valid() && Gains(comps, caps, stage, next, s) && node == SlotNode(comps, caps, next, s)
      requires isClone <==> s.CompSlot? && s.k > 0
      modifies this`nodes, this`nodeMap, this`slots, this`stage, this`clones
      ensures Valid() && stage == next && slots == old(slots) + [s] && index == |old(nodes)|
                && index < |nodes| == |slots|
    {
      hide NamesValid, ImportsValid, Shaped, Gains;
      assert |slots| == |nodes| by {
        SameLength(comps, caps, stage, nodes, nodeMap, slots);
      }
      ShapeGrows(comps, caps, stage, next, s, nodes, nodeMap, slots);
      index := |nodes|;
      nodes, slots, stage := nodes + [node], slots + [s], next;
      nodeMap := nodeMap[NodeName(node) := index];
      if isClone {
        clones := clones + {index};
      }
    }

    /** The stage once `p` interceptors of component `i` have been cloned. */
    static ghost function Cloned(st: Stage, i: nat, p: nat): Stage
      requires i < |st.built|
    {
      st.(built := st.built[i := p], started := i + 1)
    }

    /** Takes over the name of component `i`, cloning its interceptors outwards, the last declared first. */
    method Wrap(i: nat) returns (r: Option<BuildError>)
      requires Valid() && i < |comps| && comps[i].interceptors != []
      requires stage.started == i && |stage.built| == |comps| && Linked(nodes, slots, edges, {})
      modifies this
      ensures r.None? ==>
                Valid() && Linked(nodes, slots, edges, {}) && stage == Cloned(old(stage), i, |comps[i].interceptors|)
      ensures r.None? <==> !TemplateOnly(comps, i) && InterceptorsDefined(comps, i)
      ensures r.Some? ==> r == Some(if TemplateOnly(comps, i) then Unplaced(i) else Undefined(i))
    {
      hide NamesValid, ImportsValid, Shaped, Gains, Linked, TemplateOnly, Internal, StageFits, DefinedAt, Find;
      BaseMapped(comps, caps, stage, i, nodes, nodeMap, slots);
      if comps[i].name !in nodeMap {
        return Some(Unplaced(i));
      }
      ghost var st := stage;
      Fits(comps, caps, st, nodes, nodeMap, slots);
      var n := |comps[i].interceptors|;
      var index := nodeMap[comps[i].name];
      ShapeRenames(comps, caps, st, nodes, nodeMap, slots);
      RenameLinked(nodes, slots, edges, index,
                   ComponentNode(nodes[index].component.(name := Internal(comps[i].name, 0))));
      nodes := nodes[index := ComponentNode(nodes[index].component.(name := Internal(comps[i].name, 0)))];
      nodeMap := (nodeMap - {comps[i].name})[Internal(comps[i].name, 0) := index];
      stage := stage.(started := i + 1);
      assert stage == Cloned(st, i, 0);
      var current: nat := index;
      for p := 0 to n
        invariant Valid() && Linked(nodes, slots, edges, {}) && stage == Cloned(st, i, p)
        invariant current < |nodes| && |slots| == |nodes| && slots[current] == CompSlot(i, p)
        invariant forall k: nat :: k <= p ==> DefinedAt(comps, i, k)
      {
        var found := Find(comps, comps[i].interceptors[n - (p + 1)]);
        if found.None? {
          assert !DefinedAt(comps, i, p + 1) by { Undefine(comps, i, p + 1); }
          return Some(Undefined(i));
        }
        Define(comps, i, p + 1);
        var name := if p == n - 1 then comps[i].name else Internal(comps[i].name, p + 1);
        Fits(comps, caps, stage, nodes, nodeMap, slots);
        GainsClone(comps, caps, stage, i);
        ghost var next := Cloned(st, i, p + 1);
        assert next == stage.(built := stage.built[i := p + 1]);
        var node := ComponentNode(comps[found.value].(name := name));
        CloneNode(comps, caps, stage, next, i, p + 1);
        ghost var before, nodesBefore := slots, nodes;
        var added := AddNode(node, CompSlot(i, p + 1), next, true);
        NewLinked(comps, caps, st, i, p, nodesBefore, nodes, nodeMap, before, slots, edges, current);
        edges := edges[(current, added) := Interceptor(p)];
        current := added;
      }
      r := None;
    }

    /** A node for each capability and each placed component. */
    method PlaceNodes()
      requires Valid() && stage == Stage(0, [], 0) && nodes == [] && edges == map[] && slots == []
      modifies this`nodes, this`nodeMap, this`slots, this`stage, this`clones
      ensures Valid() && stage == ChainStage(comps, caps, 0) && Linked(nodes, slots, edges, {})
    {
      hide NamesValid, ImportsValid, Shaped, Gains, Linked, TemplateOnly, StageFits, SlotNode;
      for i := 0 to |caps|
        invariant Valid() && stage == Stage(i, [], 0)
      {
        Fits(comps, caps, stage, nodes, nodeMap, slots);
        GainsCapability(comps, caps, stage);
        CapabilityNodeOf(comps, caps, stage, Stage(i + 1, [], 0), i);
        var index := AddNode(CapabilityNode(caps[i]), CapSlot(i), Stage(i + 1, [], 0), false);
      }
      for i := 0 to |comps|
        invariant Valid() && stage == Stage(|caps|, Zeros(i), 0)
      {
        Fits(comps, caps, stage, nodes, nodeMap, slots);
        assert Zeros(i + 1) == Zeros(i) + [0];
        if TemplateOnly(comps, i) {
          SkipsTemplate(comps, caps, stage, nodes, nodeMap, slots);
          stage := Stage(|caps|, Zeros(i + 1), 0);
        } else {
          GainsComponent(comps, caps, stage);
          ComponentNodeOf(comps, caps, stage, Stage(|caps|, Zeros(i + 1), 0), i);
          var index := AddNode(ComponentNode(comps[i]), CompSlot(i, 0), Stage(|caps|, Zeros(i + 1), 0), false);
        }
      }
      assert stage == ChainStage(comps, caps, 0);
      NoChains(comps, caps, nodes, nodeMap, slots);
    }

    /** A chain for each component with interceptors. */
    method BuildChains() returns (r: Option<BuildError>)
      requires Valid() && stage == ChainStage(comps, caps, 0) && Linked(nodes, slots, edges, {})
      modifies this
      ensures r.None? ==> Valid() && stage == ChainStage(comps, caps, |comps|) && Linked(nodes, slots, edges, {})
      ensures r.None? <==> forall i :: 0 <= i < |comps| ==> Wrappable(comps, i)
      ensures r.Some? ==> Blames(comps, r.value)
    {
      hide NamesValid, ImportsValid, Shaped, Linked, TemplateOnly, InterceptorsDefined;
      for i := 0 to |comps|
        invariant Valid() && stage == ChainStage(comps, caps, i) && Linked(nodes, slots, edges, {})
        invariant forall j :: 0 <= j < i ==> Wrappable(comps, j)
      {
        if comps[i].interceptors == [] {
          SkipsPlain(comps, caps, stage, nodes, nodeMap, slots);
          stage := stage.(started := i + 1);
        } else {
          r := Wrap(i);
          if r.Some? {
            assert !Wrappable(comps, i);
            return;
          }
        }
        assert stage == ChainStage(comps, caps, i + 1);
      }
      r := None;
    }

    /** Links node `v` to everything it imports. */
    method Connect(v: nat, imports: seq<string>, ghost done: set<nat>)
      requires Valid() && stage.started == |comps| && v < |nodes| && Linked(nodes, slots, edges, done)
      requires nodes[v].ComponentNode? && nodes[v].component.imports == imports
      modifies this`edges
      ensures Valid() && Linked(nodes, slots, edges, done + {v})
    {
      hide NamesValid, ImportsValid, Shaped, StageFits, Linked, NoStray, IsNext, ImportsFrom;
      NoStrayMore(nodes, slots, edges, done, v);
      for k := 0 to |imports|
        invariant NoStray(nodes, slots, edges, done + {v})
        invariant forall e :: e in old(edges) ==> e in edges
        invariant forall u: nat :: u < |nodes| && NodeName(nodes[u]) in imports[..k] ==> (u, v) in edges
      {
        var x := imports[k];
        assert imports[..k + 1] == imports[..k] + [x];
        if x in nodeMap {
          var u := nodeMap[x];
          ImportedEdge(comps, caps, stage, nodes, nodeMap, slots, v, x);
          NoStrayEdge(nodes, slots, edges, done + {v}, u, v);
          edges := edges[(u, v) := Dependency];
        } else {
          NotMapped(comps, caps, stage, nodes, nodeMap, slots, x);
        }
      }
      assert imports[..|imports|] == imports;
      LinkedMore(nodes, slots, old(edges), edges, done, v);
    }

    /** Dependency edges, for the components as written and then for the cloned interceptors in any order. */
    method ConnectAll()
      requires Valid() && stage == ChainStage(comps, caps, |comps|) && Linked(nodes, slots, edges, {})
      modifies this`edges
      ensures Valid() && Linked(nodes, slots, edges, ComponentNodes(nodes))
    {
      hide NamesValid, ImportsValid, Shaped, Linked, StageFits, Present, SlotNode, TemplateOnly, Internal,
        ComponentNodes;
      ghost var done: set<nat> := {};
      SlotKinds(comps, caps, stage, nodes, nodeMap, slots);
      for i := 0 to |comps|
        invariant Valid() && Linked(nodes, slots, edges, done)
        invariant forall v :: 0 <= v < |slots| && slots[v].CompSlot? && slots[v].k == 0 && slots[v].i < i ==> v in done
        invariant forall v :: v in done ==> v < |nodes| && nodes[v].ComponentNode?
      {
        var name := if comps[i].interceptors == [] then comps[i].name else Internal(comps[i].name, 0);
        OwnMapped(comps, caps, stage, nodes, nodeMap, slots, i);
        if name in nodeMap {
          var v := nodeMap[name];
          Connect(v, comps[i].imports, done);
          done := done + {v};
        }
      }
      var rest := clones;
      while rest != {}
        invariant rest <= clones && Valid() && Linked(nodes, slots, edges, done)
        invariant forall v :: 0 <= v < |slots| && slots[v].CompSlot? && slots[v].k == 0 ==> v in done
        invariant forall v :: v in done ==> v < |nodes| && nodes[v].ComponentNode?
        invariant forall v :: v in clones && v !in rest && nodes[v].ComponentNode? ==> v in done
        decreases |rest|
      {
        var v :| v in rest;
        rest := rest - {v};
        if nodes[v].ComponentNode? {
          Connect(v, nodes[v].component.imports, done);
          done := done + {v};
        }
      }
      AllDone(comps, caps, stage, nodes, nodeMap, slots, done);
    }

    /** Builds the graph, or says why there is none. */
    method Build() returns (r: Option<BuildError>)
      requires Valid() && stage == Stage(0, [], 0) && nodes == [] && edges == map[] && slots == []
      modifies this
      ensures r.None? || r == Some(Cyclic) ==>
                && Valid() && stage == ChainStage(comps, caps, |comps|)
                     && Linked(nodes, slots, edges, ComponentNodes(nodes))
                && forall i :: 0 <= i < |comps| ==> Wrappable(comps, i)
      ensures r.None? ==> forall walk :: !Topology.Cycle(edges.Keys, walk)
      ensures r == Some(Cyclic) ==> exists walk :: Topology.Cycle(edges.Keys, walk)
      ensures r.Some? && r != Some(Cyclic) ==> Blames(comps, r.value)
    {
      hide NamesValid, ImportsValid, Shaped, Linked, ComponentNodes, Wrappable, TemplateOnly, InterceptorsDefined;
      PlaceNodes();
      r := BuildChains();
      if r.Some? {
        hide Topology.Cycle;
        return;
      }
      ConnectAll();
      EdgesWithin(nodes, slots, edges);
      var order := Topology.Toposort(|nodes|, edges.Keys);
      if order.None? {
        return Some(Cyclic);
      }
      forall walk
        ensures !Topology.Cycle(edges.Keys, walk)
      {
        Topology.SortedAcyclic(|nodes|, edges.Keys, order.value, walk);
      }
    }

    /** Dependencies before dependents. */
    method GetBuildOrder() returns (order: seq<nat>)
      requires Linked(nodes, slots, edges, ComponentNodes(nodes)) && forall walk :: !Topology.Cycle(edges.Keys, walk)
      ensures Topology.Sorted(|nodes|, edges.Keys, order)
    {
      EdgesWithin(nodes, slots, edges);
      var sorted := Topology.Toposort(|nodes|, edges.Keys);
      order := sorted.value;
    }
  }

  function Zeros(n: nat): seq<nat> {
    seq(n, i => 0)
  }

  /** All nodes placed, and the chains of the first `i` components built. */
  function ChainStage(comps: seq<Component>, caps: seq<Capability>, i: nat): Stage {
    Stage(|caps|, seq(|comps|, j requires 0 <= j < |comps| => if j < i then |comps[j].interceptors| else 0), i)
  }

  /** A component whose chain can be built. */
  predicate Wrappable(comps: seq<Component>, i: nat)
    requires i < |comps|
  {
    comps[i].interceptors != [] ==> !TemplateOnly(comps, i) && InterceptorsDefined(comps, i)
  }

  predicate Blames(comps: seq<Component>, e: BuildError) {
    match e
    case Unplaced(i) => i < |comps| && comps[i].interceptors != [] && TemplateOnly(comps, i)
    case Undefined(i) => i < |comps| && !InterceptorsDefined(comps, i)
    case Cyclic => false
  }

  function ComponentNodes(nodes: seq<Node>): set<nat> {
    set v: nat | v < |nodes| && nodes[v].ComponentNode?
  }

  lemma CapabilityNodeOf(comps: seq<Component>, caps: seq<Capability>, st: Stage, next: Stage, i: nat)
    requires Gains(comps, caps, st, next, CapSlot(i))
    ensures StageFits(comps, caps, next) && i < |caps|
              && SlotNode(comps, caps, next, CapSlot(i)) == CapabilityNode(caps[i])
  {
  }

  lemma ComponentNodeOf(comps: seq<Component>, caps: seq<Capability>, st: Stage, next: Stage, i: nat)
    requires Gains(comps, caps, st, next, CompSlot(i, 0)) && next.started == 0
    ensures StageFits(comps, caps, next) && i < |comps|
              && SlotNode(comps, caps, next, CompSlot(i, 0)) == ComponentNode(comps[i])
  {
    hide TemplateOnly;
  }

  lemma NoChains(comps: seq<Component>, caps: seq<Capability>, nodes: seq<Node>, nodeMap: map<string, nat>,
                 slots: seq<Slot>)
    requires Shaped(comps, caps, ChainStage(comps, caps, 0), nodes, nodeMap, slots)
    ensures Linked(nodes, slots, map[], {})
  {
    hide SlotNode, TemplateOnly, DefinedAt, Mapped, ImportsFrom;
    forall u, v | 0 <= u < |slots| && 0 <= v < |slots|
      ensures !IsNext(slots[u], slots[v])
    {
      assert Present(comps, caps, ChainStage(comps, caps, 0), slots[v]);
    }
  }

  lemma NoStrayMore(nodes: seq<Node>, slots: seq<Slot>, edges: map<(nat, nat), Edge>, done: set<nat>, v: nat)
    requires Linked(nodes, slots, edges, done)
    ensures NoStray(nodes, slots, edges, done + {v})
  {
  }

  lemma NoStrayEdge(nodes: seq<Node>, slots: seq<Slot>, edges: map<(nat, nat), Edge>, done: set<nat>, u: nat, v: nat)
    requires NoStray(nodes, slots, edges, done) && v in done && u < |nodes| && v < |nodes| == |slots|
    requires ImportsFrom(nodes, u, v) && !IsNext(slots[u], slots[v])
    ensures NoStray(nodes, slots, edges[(u, v) := Dependency], done)
  {
  }

  lemma LinkedMore(nodes: seq<Node>, slots: seq<Slot>, before: map<(nat, nat), Edge>, edges: map<(nat, nat), Edge>,
                   done: set<nat>, v: nat)
    requires Linked(nodes, slots, before, done) && v < |nodes| && nodes[v].ComponentNode?
    requires NoStray(nodes, slots, edges, done + {v}) && forall e :: e in before ==> e in edges
    requires forall u: nat :: u < |nodes| && NodeName(nodes[u]) in nodes[v].component.imports ==> (u, v) in edges
    ensures Linked(nodes, slots, edges, done + {v})
  {
  }

  /** Chain positions are component nodes of the given components. */
  lemma SlotKinds(comps: seq<Component>, caps: seq<Capability>, st: Stage,
                  nodes: seq<Node>, nodeMap: map<string, nat>, slots: seq<Slot>)
    requires Shaped(comps, caps, st, nodes, nodeMap, slots)
    ensures |slots| == |nodes|
    ensures forall v :: 0 <= v < |slots| ==> (slots[v].CompSlot? <==> nodes[v].ComponentNode?)
    ensures forall v :: 0 <= v < |slots| && slots[v].CompSlot? ==> slots[v].i < |comps|
  {
    hide TemplateOnly, DefinedAt, StageFits;
    forall v | 0 <= v < |slots|
      ensures slots[v].CompSlot? <==> nodes[v].ComponentNode?
      ensures slots[v].CompSlot? ==> slots[v].i < |comps|
    {
      assert nodes[v] == SlotNode(comps, caps, st, slots[v]);
      Fits(comps, caps, st, nodes, nodeMap, slots);
    }
  }

  /** An import that is in the name map comes from a node of that name, which is not inside a chain. */
  lemma ImportedEdge(comps: seq<Component>, caps: seq<Capability>, st: Stage,
                     nodes: seq<Node>, nodeMap: map<string, nat>, slots: seq<Slot>, v: nat, x: string)
    requires NamesValid(comps, caps) && ImportsValid(comps, caps) && Shaped(comps, caps, st, nodes, nodeMap, slots)
    requires st.started == |comps| && x in nodeMap
    requires v < |nodes| && nodes[v].ComponentNode? && x in nodes[v].component.imports
    ensures nodeMap[x] < |nodes| == |slots| && NodeName(nodes[nodeMap[x]]) == x && ImportsFrom(nodes, nodeMap[x], v)
    ensures !IsNext(slots[nodeMap[x]], slots[v])
    ensures forall u: nat :: u < |nodes| && NodeName(nodes[u]) == x ==> u == nodeMap[x]
  {
    hide TemplateOnly, StageFits, Present, SlotName, SlotNode, NamesValid, ImportsValid, IsNext, Internal;
    var u := nodeMap[x];
    assert Present(comps, caps, st, slots[u]) && nodes[u] == SlotNode(comps, caps, st, slots[u]);
    ImportIsValid(comps, caps, st, nodes, nodeMap, slots, v, x);
    InsideNotImported(comps, caps, st, slots[u], slots[v], x);
  }

  /** Nodes import valid names only. */
  lemma ImportIsValid(comps: seq<Component>, caps: seq<Capability>, st: Stage,
                      nodes: seq<Node>, nodeMap: map<string, nat>, slots: seq<Slot>, v: nat, x: string)
    requires ImportsValid(comps, caps) && Shaped(comps, caps, st, nodes, nodeMap, slots)
    requires v < |nodes| && nodes[v].ComponentNode? && x in nodes[v].component.imports
    ensures Present(comps, caps, st, slots[v]) && ValidName(x)
  {
    hide TemplateOnly, ValidName, Mapped;
    assert Present(comps, caps, st, slots[v]) && nodes[v] == SlotNode(comps, caps, st, slots[v]);
    var c := Content(comps, slots[v].i, slots[v].k);
    assert c in comps;
  }

  lemma NotMapped(comps: seq<Component>, caps: seq<Capability>, st: Stage,
                  nodes: seq<Node>, nodeMap: map<string, nat>, slots: seq<Slot>, x: string)
    requires Shaped(comps, caps, st, nodes, nodeMap, slots) && x !in nodeMap
    ensures forall u: nat :: u < |nodes| ==> NodeName(nodes[u]) != x
  {
  }

  /** The name at the foot of a chain is mapped to the component's own node, if it has one. */
  lemma OwnMapped(comps: seq<Component>, caps: seq<Capability>, st: Stage,
                  nodes: seq<Node>, nodeMap: map<string, nat>, slots: seq<Slot>, i: nat)
    requires NamesValid(comps, caps) && Shaped(comps, caps, st, nodes, nodeMap, slots) && i < |comps|
    requires st == ChainStage(comps, caps, |comps|)
    ensures var name := ChainName(comps[i], 0);
            && (name in nodeMap ==>
                  var v := nodeMap[name];
                  && v < |nodes| == |slots| && slots[v] == CompSlot(i, 0)
                  && nodes[v].ComponentNode? && nodes[v].component.imports == comps[i].imports)
            && (forall v :: 0 <= v < |slots| && slots[v] == CompSlot(i, 0) ==> name in nodeMap && v == nodeMap[name])
  {
    hide TemplateOnly, DefinedAt, Internal, NamesValid;
    var name := ChainName(comps[i], 0);
    if name in nodeMap {
      var v := nodeMap[name];
      assert Present(comps, caps, st, slots[v]) && nodes[v] == SlotNode(comps, caps, st, slots[v]);
      FootNamed(comps, caps, st, i, slots[v]);
    }
    forall v | 0 <= v < |slots| && slots[v] == CompSlot(i, 0)
      ensures name in nodeMap && v == nodeMap[name]
    {
      assert nodes[v] == SlotNode(comps, caps, st, slots[v]);
    }
  }

  lemma FootNamed(comps: seq<Component>, caps: seq<Capability>, st: Stage, i: nat, s: Slot)
    requires NamesValid(comps, caps) && StageFits(comps, caps, st) && Present(comps, caps, st, s) && i < |comps|
    requires st == ChainStage(comps, caps, |comps|) && SlotName(comps, caps, st, s) == ChainName(comps[i], 0)
    ensures s == CompSlot(i, 0)
  {
    hide TemplateOnly, DefinedAt, Internal;
    BaseNames(comps, caps);
    InternalDistinct(comps[i].name, 0, comps[i].name, 0);
    if s.CompSlot? {
      InternalDistinct(comps[s.i].name, s.k, comps[i].name, 0);
      InternalDistinct(comps[s.i].name, s.k, comps[s.i].name, s.k);
    }
  }

  lemma AllDone(comps: seq<Component>, caps: seq<Capability>, st: Stage,
                nodes: seq<Node>, nodeMap: map<string, nat>, slots: seq<Slot>, done: set<nat>)
    requires Shaped(comps, caps, st, nodes, nodeMap, slots)
    requires forall v :: 0 <= v < |slots| && slots[v].CompSlot? ==> v in done
    requires forall v :: v in done ==> v < |nodes| && nodes[v].ComponentNode?
    ensures done == ComponentNodes(nodes)
  {
    hide TemplateOnly, DefinedAt, StageFits;
    forall v | v in ComponentNodes(nodes)
      ensures v in done
    {
      assert nodes[v] == SlotNode(comps, caps, st, slots[v]);
    }
  }

  lemma EdgesWithin(nodes: seq<Node>, slots: seq<Slot>, edges: map<(nat, nat), Edge>)
    requires Linked(nodes, slots, edges, ComponentNodes(nodes))
    ensures Topology.Within(|nodes|, edges.Keys)
  {
  }

  lemma Fits(comps: seq<Component>, caps: seq<Capability>, st: Stage,
             nodes: seq<Node>, nodeMap: map<string, nat>, slots: seq<Slot>)
    requires Shaped(comps, caps, st, nodes, nodeMap, slots)
    ensures StageFits(comps, caps, st) && st.started <= |st.built| <= |comps| && st.caps <= |caps|
    ensures forall i :: 0 <= i < |st.built| ==> st.built[i] <= |comps[i].interceptors|
    ensures forall i :: st.started <= i < |st.built| ==> st.built[i] == 0
    ensures |slots| == |nodes|
  {
  }

  lemma Define(comps: seq<Component>, i: nat, k: nat)
    requires i < |comps| && 0 < k <= |comps[i].interceptors|
    requires Find(comps, comps[i].interceptors[|comps[i].interceptors| - k]).Some?
    ensures DefinedAt(comps, i, k)
  {
  }

  lemma Undefine(comps: seq<Component>, i: nat, k: nat)
    requires i < |comps| && 0 < k <= |comps[i].interceptors|
    requires Find(comps, comps[i].interceptors[|comps[i].interceptors| - k]).None?
    ensures !DefinedAt(comps, i, k)
  {
  }

  /** The clone at position `k`. */
  lemma CloneNode(comps: seq<Component>, caps: seq<Capability>, before: Stage, st: Stage, i: nat, k: nat)
    requires Gains(comps, caps, before, st, CompSlot(i, k)) && i < st.started && k > 0
    ensures i < |comps| && k <= |comps[i].interceptors| && StageFits(comps, caps, st)
              && Present(comps, caps, st, CompSlot(i, k))
    ensures var found := Find(comps, comps[i].interceptors[|comps[i].interceptors| - k]);
            && found.Some?
            && SlotNode(comps, caps, st, CompSlot(i, k)) ==
               ComponentNode(comps[found.value].(name := if k == |comps[i].interceptors| then comps[i].name
                                                 else Internal(comps[i].name, k)))
  {
    hide TemplateOnly, Internal;
    assert DefinedAt(comps, i, k);
  }

  lemma RenameLinked(nodes: seq<Node>, slots: seq<Slot>, edges: map<(nat, nat), Edge>, v: nat, node: Node)
    requires Linked(nodes, slots, edges, {}) && v < |nodes|
    ensures Linked(nodes[v := node], slots, edges, {})
  {
    hide ImportsFrom;
  }

  /** One link more, from the end of the chain so far. */
  lemma NewLinked(comps: seq<Component>, caps: seq<Capability>, st: Stage, i: nat, p: nat,
                  nodesBefore: seq<Node>, nodes: seq<Node>, nodeMap: map<string, nat>, before: seq<Slot>,
                    slots: seq<Slot>,
                  edges: map<(nat, nat), Edge>, current: nat)
    requires slots == before + [CompSlot(i, p + 1)] && |nodes| == |slots| && current < |before|
              && before[current] == CompSlot(i, p)
    requires i < |st.built|
    requires Shaped(comps, caps, ComponentGraph.Cloned(st, i, p + 1), nodes, nodeMap, slots)
    requires Linked(nodesBefore, before, edges, {})
    ensures Linked(nodes, slots, edges[(current, |before|) := Interceptor(p)], {})
  {
    hide SlotNode, SlotName, TemplateOnly, DefinedAt, Mapped, Present, Shaped, StageFits, ImportsFrom;
    forall u, v | 0 <= u < |nodes| && 0 <= v < |nodes| && IsNext(slots[u], slots[v])
      ensures (u, v) in edges[(current, |before|) := Interceptor(p)]
    {
      EndOfChain(comps, caps, st, i, p, nodes, nodeMap, slots, u, v);
      if v == |before| {
        assert slots[u] == slots[current];
      } else {
        assert before[u] == slots[u] && before[v] == slots[v];
      }
    }
  }

  /** The newest clone has no successor, and only the previous end of the chain precedes it. */
  lemma EndOfChain(comps: seq<Component>, caps: seq<Capability>, st: Stage, i: nat, p: nat,
                   nodes: seq<Node>, nodeMap: map<string, nat>, slots: seq<Slot>, u: nat, v: nat)
    requires i < |st.built| && Shaped(comps, caps, ComponentGraph.Cloned(st, i, p + 1), nodes, nodeMap, slots)
    requires slots != [] && slots[|slots| - 1] == CompSlot(i, p + 1)
    requires u < |slots| && v < |slots| && IsNext(slots[u], slots[v])
    ensures u < |slots| - 1
    ensures v == |slots| - 1 ==> forall c :: 0 <= c < |slots| && slots[c] == CompSlot(i, p) ==> c == u
  {
    hide SlotNode, SlotName, TemplateOnly, DefinedAt, Mapped;
    assert Present(comps, caps, ComponentGraph.Cloned(st, i, p + 1), slots[v]);
  }

  lemma SameLength(comps: seq<Component>, caps: seq<Capability>, st: Stage,
                   nodes: seq<Node>, nodeMap: map<string, nat>, slots: seq<Slot>)
    requires Shaped(comps, caps, st, nodes, nodeMap, slots)
    ensures |slots| == |nodes|
  {
  }
}
