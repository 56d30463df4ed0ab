/** What a built graph promises: complete chains, no way round an interceptor, an edge for every import. */
module GraphGuarantees {
  import opened Definitions
  import opened CompositionGraph
  import opened Wrappers
  import Decimals

  /** What `ComponentGraph.Build` establishes. */
  ghost predicate Built(comps: seq<Component>, caps: seq<Capability>,
                        nodes: seq<Node>, nodeMap: map<string, nat>, slots: seq<Slot>, edges: map<(nat, nat), Edge>)
  {
    && NamesValid(comps, caps) && ImportsValid(comps, caps)
    && Shaped(comps, caps, ChainStage(comps, caps, |comps|), nodes, nodeMap, slots)
    && Linked(nodes, slots, edges, ComponentNodes(nodes))
  }

  lemma SlotAt(comps: seq<Component>, caps: seq<Capability>,
               nodes: seq<Node>, nodeMap: map<string, nat>, slots: seq<Slot>, edges: map<(nat, nat), Edge>, s: Slot)
    returns (v: nat)
    requires Built(comps, caps, nodes, nodeMap, slots, edges)
    requires StageFits(comps, caps, ChainStage(comps, caps, |comps|))
              && Present(comps, caps, ChainStage(comps, caps, |comps|), s)
    ensures v < |nodes| == |slots| && slots[v] == s
    ensures nodes[v] == SlotNode(comps, caps, ChainStage(comps, caps, |comps|), s)
    ensures NodeName(nodes[v]) in nodeMap && nodeMap[NodeName(nodes[v])] == v
  {
    hide NamesValid, ImportsValid, Linked, StageFits, Present, SlotNode, TemplateOnly, DefinedAt;
    assert s in slots;
    v :| 0 <= v < |slots| && slots[v] == s;
  }

  /** The node named for position `k` of a chain holds what belongs there. */
  ghost predicate Stands(comps: seq<Component>, nodes: seq<Node>, nodeMap: map<string, nat>, slots: seq<Slot>,
                         i: nat, k: nat) {
    && i < |comps| && k <= |comps[i].interceptors| && DefinedAt(comps, i, k)
    && var name := ChainName(comps[i], k);
    && name in nodeMap && nodeMap[name] < |nodes| == |slots| && slots[nodeMap[name]] == CompSlot(i, k)
    && nodes[nodeMap[name]] == ComponentNode(Content(comps, i, k).(name := name))
  }

  /** Position `k` of a chain leads to the next. */
  ghost predicate Leads(comps: seq<Component>, nodeMap: map<string, nat>, edges: map<(nat, nat), Edge>, i: nat,
                        k: nat) {
    && i < |comps| && k < |comps[i].interceptors|
    && ChainName(comps[i], k) in nodeMap && ChainName(comps[i], k + 1) in nodeMap
    && var link := (nodeMap[ChainName(comps[i], k)], nodeMap[ChainName(comps[i], k + 1)]);
    link in edges && edges[link] == Interceptor(k)
  }

  /**
   * The chain of a placed component: its own node under the reserved name, then its interceptors, the last
   * declared first, the outermost under the component's name; each linked to the next.
   */
  lemma ChainComplete(comps: seq<Component>, caps: seq<Capability>,
                      nodes: seq<Node>, nodeMap: map<string, nat>, slots: seq<Slot>, edges: map<(nat, nat), Edge>,
                        i: nat, k: nat)
    requires Built(comps, caps, nodes, nodeMap, slots, edges)
    requires i < |comps| && !TemplateOnly(comps, i) && k <= |comps[i].interceptors|
    ensures Stands(comps, nodes, nodeMap, slots, i, k)
    ensures k > 0 ==> Stands(comps, nodes, nodeMap, slots, i, k - 1) && Leads(comps, nodeMap, edges, i, k - 1)
  {
    hide NamesValid, ImportsValid, TemplateOnly, Internal, Mapped, Linked;
    var st := ChainStage(comps, caps, |comps|);
    assert StageFits(comps, caps, st) && Present(comps, caps, st, CompSlot(i, k));
    var v := SlotAt(comps, caps, nodes, nodeMap, slots, edges, CompSlot(i, k));
    assert DefinedAt(comps, i, k);
    if k > 0 {
      assert Present(comps, caps, st, CompSlot(i, k - 1));
      var u := SlotAt(comps, caps, nodes, nodeMap, slots, edges, CompSlot(i, k - 1));
      assert (u, v) in edges && edges[(u, v)] == Interceptor(k - 1) by {
        LinkHere(nodes, slots, edges, u, v);
      }
    }
  }

  /** The name of the `j`th interceptor of a component as called from outside, and of the component behind the last. */
  function Place(c: Component, j: nat): string
    requires j <= |c.interceptors|
  {
    if j == 0 then c.name else "_" + c.name + "$" + Decimals.Digits(|c.interceptors| - j)
  }

  predicate IsUsed(comps: seq<Component>, c: Component) {
    || (exists i :: 0 <= i < |comps| && c.name in comps[i].imports)
    || (forall i :: 0 <= i < |comps| ==> c.name !in comps[i].interceptors)
  }

  /**
   * Interceptors are called in the order they are listed: the first stands under the component's name, each is a clone
   * of the definition it names and reached from the next, and the component itself comes last, under a reserved name.
   */
  lemma CallOrder(comps: seq<Component>, caps: seq<Capability>,
                  nodes: seq<Node>, nodeMap: map<string, nat>, slots: seq<Slot>, edges: map<(nat, nat), Edge>,
                  c: Component, j: nat)
    requires Built(comps, caps, nodes, nodeMap, slots, edges)
    requires c in comps && IsUsed(comps, c) && j <= |c.interceptors|
    ensures Place(c, j) in nodeMap && nodeMap[Place(c, j)] < |nodes|
    ensures nodes[nodeMap[Place(c, j)]].ComponentNode?
    ensures var node := nodes[nodeMap[Place(c, j)]].component;
            if j == |c.interceptors| then node == c.(name := Place(c, j))
            else exists d :: d in comps && d.name == c.interceptors[j] && node == d.(name := Place(c, j))
    ensures j > 0 ==>
              && Place(c, j - 1) in nodeMap
              && var link := (nodeMap[Place(c, j)], nodeMap[Place(c, j - 1)]);
              link in edges && edges[link] == Interceptor(|c.interceptors| - j)
  {
    hide Built, Decimals.Digits;
    var i :| 0 <= i < |comps| && comps[i] == c;
    var k := |c.interceptors| - j;
    assert ChainName(c, k) == Place(c, j);
    ChainComplete(comps, caps, nodes, nodeMap, slots, edges, i, k);
    if j < |c.interceptors| {
      var d := comps[Find(comps, c.interceptors[j]).value];
      assert d in comps && d.name == c.interceptors[j];
    }
    if j > 0 {
      assert ChainName(c, k + 1) == Place(c, j - 1);
      ChainComplete(comps, caps, nodes, nodeMap, slots, edges, i, k + 1);
    }
  }

  /** A component that is an interceptor and nothing's import has no node of its own. */
  lemma TemplateUnplaced(comps: seq<Component>, caps: seq<Capability>,
                         nodes: seq<Node>, nodeMap: map<string, nat>, slots: seq<Slot>, edges: map<(nat, nat), Edge>,
                         c: Component)
    requires Built(comps, caps, nodes, nodeMap, slots, edges) && c in comps
    ensures c.name in nodeMap <==> IsUsed(comps, c)
  {
    if IsUsed(comps, c) {
      CallOrder(comps, caps, nodes, nodeMap, slots, edges, c, 0);
    } else if c.name in nodeMap {
      hide Linked, ImportsValid, NamesValid, StageFits;
      var st, v := ChainStage(comps, caps, |comps|), nodeMap[c.name];
      assert Present(comps, caps, st, slots[v]) && SlotName(comps, caps, st, slots[v]) == c.name;
      BaseNames(comps, caps);
      if slots[v].CompSlot? {
        InternalDistinct(comps[slots[v].i].name, slots[v].k, "", 0);
      }
    }
  }

  lemma LinkHere(nodes: seq<Node>, slots: seq<Slot>, edges: map<(nat, nat), Edge>, u: nat, v: nat)
    requires Linked(nodes, slots, edges, ComponentNodes(nodes)) && u < |nodes| && v < |nodes|
              && IsNext(slots[u], slots[v])
    ensures (u, v) in edges && edges[(u, v)] == Interceptor(slots[u].k)
  {
  }

  /** Names and nodes correspond one to one. */
  lemma NamesAreNodes(comps: seq<Component>, caps: seq<Capability>,
                      nodes: seq<Node>, nodeMap: map<string, nat>, slots: seq<Slot>, edges: map<(nat, nat), Edge>,
                        name: string, v: nat)
    requires Built(comps, caps, nodes, nodeMap, slots, edges)
    ensures (name in nodeMap && nodeMap[name] == v) <==> (v < |nodes| && NodeName(nodes[v]) == name)
  {
    hide NamesValid, ImportsValid, Linked, StageFits, Present, SlotNode;
  }

  /** Every import of every node has its edge. What is imported is never only a template. */
  lemma ImportsLinked(comps: seq<Component>, caps: seq<Capability>,
                      nodes: seq<Node>, nodeMap: map<string, nat>, slots: seq<Slot>, edges: map<(nat, nat), Edge>,
                        v: nat, x: string)
    requires Built(comps, caps, nodes, nodeMap, slots, edges)
    requires v < |nodes| && nodes[v].ComponentNode? && x in nodes[v].component.imports
    ensures x in nodeMap && (nodeMap[x], v) in edges && edges[(nodeMap[x], v)] == Dependency
  {
    hide NamesValid, ImportsValid, TemplateOnly, Internal, Mapped, Linked, StageFits, Present, SlotNode;
    ImportOrigin(comps, caps, nodes, nodeMap, slots, edges, v, x);
    DefinitionMapped(comps, caps, nodes, nodeMap, slots, edges, x);
    ImportedEdge(comps, caps, ChainStage(comps, caps, |comps|), nodes, nodeMap, slots, v, x);
    EdgeHere(nodes, slots, edges, nodeMap[x], v);
  }

  lemma EdgeHere(nodes: seq<Node>, slots: seq<Slot>, edges: map<(nat, nat), Edge>, u: nat, v: nat)
    requires Linked(nodes, slots, edges, ComponentNodes(nodes)) && u < |nodes| && v < |nodes|
    requires ImportsFrom(nodes, u, v) && !IsNext(slots[u], slots[v])
    ensures (u, v) in edges && edges[(u, v)] == Dependency
  {
    assert v in ComponentNodes(nodes);
  }

  /** A placed definition's name is in the name map. */
  lemma DefinitionMapped(comps: seq<Component>, caps: seq<Capability>,
                         nodes: seq<Node>, nodeMap: map<string, nat>, slots: seq<Slot>, edges: map<(nat, nat), Edge>,
                           x: string)
    requires Built(comps, caps, nodes, nodeMap, slots, edges) && x in Names(comps, caps)
    requires forall i :: 0 <= i < |comps| && comps[i].name == x ==> !TemplateOnly(comps, i)
    ensures x in nodeMap
  {
    hide NamesValid, ImportsValid, TemplateOnly, Internal, Mapped, Linked;
    var st := ChainStage(comps, caps, |comps|);
    var names := Names(comps, caps);
    var n :| 0 <= n < |names| && names[n] == x;
    hide Names;
    if n < |caps| {
      assert StageFits(comps, caps, st) && Present(comps, caps, st, CapSlot(n));
      var u := SlotAt(comps, caps, nodes, nodeMap, slots, edges, CapSlot(n));
    } else {
      var i := n - |caps|;
      hide Built;
      ChainComplete(comps, caps, nodes, nodeMap, slots, edges, i, |comps[i].interceptors|);
    }
  }

  lemma ImportOrigin(comps: seq<Component>, caps: seq<Capability>,
                     nodes: seq<Node>, nodeMap: map<string, nat>, slots: seq<Slot>, edges: map<(nat, nat), Edge>,
                       v: nat, x: string)
    requires Built(comps, caps, nodes, nodeMap, slots, edges)
    requires v < |nodes| && nodes[v].ComponentNode? && x in nodes[v].component.imports
    ensures ValidName(x) && x in Names(comps, caps)
    ensures forall i :: 0 <= i < |comps| && comps[i].name == x ==> !TemplateOnly(comps, i)
  {
    hide Linked, Mapped, NamesValid, Internal, TemplateOnly;
    var st := ChainStage(comps, caps, |comps|);
    assert nodes[v] == SlotNode(comps, caps, st, slots[v]) && Present(comps, caps, st, slots[v]);
    assert StageFits(comps, caps, st);
    var c := Content(comps, slots[v].i, slots[v].k);
    assert c in comps;
    var j :| 0 <= j < |comps| && comps[j] == c;
    assert x in comps[j].imports;
    forall i | 0 <= i < |comps| && comps[i].name == x
      ensures !TemplateOnly(comps, i)
    {
      NotTemplate(comps, i, j);
    }
  }

  lemma NotTemplate(comps: seq<Component>, i: nat, j: nat)
    requires i < |comps| && j < |comps| && comps[i].name in comps[j].imports
    ensures !TemplateOnly(comps, i)
  {
  }

  predicate Path(edges: map<(nat, nat), Edge>, path: seq<nat>) {
    forall j :: 0 <= j < |path| - 1 ==> (path[j], path[j + 1]) in edges
  }

  /** `j` steps on, a path that starts at position `k` of the chain is at position `k + j`. */
  predicate Visits(c: Component, nodeMap: map<string, nat>, path: seq<nat>, k: nat, j: nat) {
    j < |path| && ChainName(c, k + j) in nodeMap && path[j] == nodeMap[ChainName(c, k + j)]
  }

  /** From inside a chain there is one way: to the next interceptor. */
  lemma OneWayOut(comps: seq<Component>, caps: seq<Capability>,
                  nodes: seq<Node>, nodeMap: map<string, nat>, slots: seq<Slot>, edges: map<(nat, nat), Edge>,
                    i: nat, k: nat, u: nat, v: nat)
    requires Built(comps, caps, nodes, nodeMap, slots, edges)
    requires i < |comps| && k < |comps[i].interceptors| && u < |nodes| == |slots| && slots[u] == CompSlot(i, k)
              && (u, v) in edges
    ensures v < |nodes| && slots[v] == CompSlot(i, k + 1) && edges[(u, v)] == Interceptor(k)
  {
    hide ImportsValid, NamesValid, Mapped, StageFits, TemplateOnly, Internal;
    var st := ChainStage(comps, caps, |comps|);
    if !IsNext(slots[u], slots[v]) {
      assert ImportsFrom(nodes, u, v);
      ImportOrigin(comps, caps, nodes, nodeMap, slots, edges, v, NodeName(nodes[u]));
      assert nodes[u] == SlotNode(comps, caps, st, slots[u]);
      BaseNames(comps, caps);
      InternalDistinct(comps[i].name, k, comps[i].name, k);
      assert false;
    }
  }

  /**
   * Interceptors cannot be bypassed: a path from a component's own node to anything outside its chain visits
   * every interceptor, in order, first.
   */
  lemma {:induction false} NoBypass(comps: seq<Component>, caps: seq<Capability>,
                  nodes: seq<Node>, nodeMap: map<string, nat>, slots: seq<Slot>, edges: map<(nat, nat), Edge>,
                    i: nat, k: nat, path: seq<nat>)
    requires Built(comps, caps, nodes, nodeMap, slots, edges)
    requires i < |comps| && !TemplateOnly(comps, i) && k <= |comps[i].interceptors|
    requires |path| > 0 && Path(edges, path) && ChainName(comps[i], k) in nodeMap
              && path[0] == nodeMap[ChainName(comps[i], k)]
    requires forall j: nat :: j <= |comps[i].interceptors| && ChainName(comps[i], j) in nodeMap ==>
              path[|path| - 1] != nodeMap[ChainName(comps[i], j)]
    ensures |path| > |comps[i].interceptors| - k + 1
    ensures forall j: nat :: j <= |comps[i].interceptors| - k ==> Visits(comps[i], nodeMap, path, k, j)
    decreases |path|
  {
    hide Built, TemplateOnly, ChainName;
    var c := comps[i];
    ChainComplete(comps, caps, nodes, nodeMap, slots, edges, i, k);
    assert path[|path| - 1] != path[0];
    assert |path| > 1;
    if k < |c.interceptors| {
      assert (path[0], path[1]) in edges;
      OneWayOut(comps, caps, nodes, nodeMap, slots, edges, i, k, path[0], path[1]);
      ChainComplete(comps, caps, nodes, nodeMap, slots, edges, i, k + 1);
      SlotsDistinct(comps, caps, nodes, nodeMap, slots, edges, path[1], nodeMap[ChainName(c, k + 1)]);
      NoBypass(comps, caps, nodes, nodeMap, slots, edges, i, k + 1, path[1..]);
      forall j: nat | j <= |c.interceptors| - k
        ensures Visits(c, nodeMap, path, k, j)
      {
        if j > 0 {
          assert Visits(c, nodeMap, path[1..], k + 1, j - 1);
        }
      }
    }
  }

  lemma SlotsDistinct(comps: seq<Component>, caps: seq<Capability>,
                      nodes: seq<Node>, nodeMap: map<string, nat>, slots: seq<Slot>, edges: map<(nat, nat), Edge>,
                        u: nat, v: nat)
    requires Built(comps, caps, nodes, nodeMap, slots, edges) && u < |slots| && v < |slots| && slots[u] == slots[v]
    ensures u == v
  {
    hide NamesValid, ImportsValid, Linked, StageFits, Present, SlotNode, Mapped;
  }
}
