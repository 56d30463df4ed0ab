/** Building the registry: a fold over the build order that gathers what each component may use. */
module Registry {
  import opened Definitions
  import opened CompositionGraph
  import opened GraphGuarantees
  import opened Wrappers
  import Topology

  /** What the registry keeps of a built component; its bytes, imports and exports are not modelled. */
  datatype Spec = Spec(name: string, capabilities: set<string>, dependents: seq<string>)

  datatype RegistryError =
    | Missing(name: string)   // the source panics: a dependency that has not been built
    | OutOfScope(name: string)
    | Rejected(node: nat)     // the component does not parse, compose, or find its imports

  type Edges = map<(nat, nat), Edge>

  /** `u` reaches `v` along at least one edge. */
  ghost predicate Reaches(edges: Edges, u: nat, v: nat) {
    exists path :: |path| >= 2 && path[0] == u && path[|path| - 1] == v && Path(edges, path)
  }

  lemma ReachesByEdge(edges: Edges, u: nat, v: nat)
    requires (u, v) in edges
    ensures Reaches(edges, u, v)
  {
    assert Path(edges, [u, v]);
  }

  lemma ReachesOn(edges: Edges, u: nat, w: nat, v: nat)
    requires Reaches(edges, u, w) && (w, v) in edges
    ensures Reaches(edges, u, v)
  {
    var path :| |path| >= 2 && path[0] == u && path[|path| - 1] == w && Path(edges, path);
    assert Path(edges, path + [v]);
  }

  lemma ReachesBack(edges: Edges, u: nat, v: nat) returns (w: nat)
    requires Reaches(edges, u, v)
    ensures (w, v) in edges && (w == u || Reaches(edges, u, w))
  {
    var path :| |path| >= 2 && path[0] == u && path[|path| - 1] == v && Path(edges, path);
    w := path[|path| - 2];
    assert (path[|path| - 2], path[|path| - 2 + 1]) in edges;
    if |path| > 2 {
      assert Path(edges, path[..|path| - 1]);
    }
  }

  /** The capabilities from which `v` is reachable. */
  ghost predicate MayUse(nodes: seq<Node>, edges: Edges, v: nat, capability: string) {
    exists u :: 0 <= u < |nodes| && nodes[u].CapabilityNode? && NodeName(nodes[u]) == capability && Reaches(edges, u, v)
  }

  /** What a dependency `u` contributes, given what is built. */
  predicate Contributes(nodes: seq<Node>, built: map<string, Spec>, u: nat, capability: string)
    requires u < |nodes|
  {
    if nodes[u].CapabilityNode? then NodeName(nodes[u]) == capability
    else NodeName(nodes[u]) in built && capability in built[NodeName(nodes[u])].capabilities
  }

  /** Edges lead into component nodes. */
  ghost predicate IntoComponents(nodes: seq<Node>, edges: Edges) {
    forall e :: e in edges ==> e.0 < |nodes| && e.1 < |nodes| && nodes[e.1].ComponentNode?
  }

  lemma LinkedIntoComponents(comps: seq<Component>, caps: seq<Capability>,
                             nodes: seq<Node>, nodeMap: map<string, nat>, slots: seq<Slot>, edges: Edges)
    requires Built(comps, caps, nodes, nodeMap, slots, edges)
    ensures IntoComponents(nodes, edges)
  {
    hide NamesValid, ImportsValid, StageFits, Present, SlotNode, Mapped;
    SlotKinds(comps, caps, ChainStage(comps, caps, |comps|), nodes, nodeMap, slots);
  }

  /** A dependency's contributions are exactly what the node may use. */
  lemma UnionOfContributions(nodes: seq<Node>, edges: Edges, built: map<string, Spec>, v: nat, capability: string)
    requires IntoComponents(nodes, edges)
    requires forall u :: 0 <= u < |nodes| && (u, v) in edges && nodes[u].ComponentNode? ==>
               NodeName(nodes[u]) in built && forall c :: c in built[NodeName(nodes[u])].capabilities <==>
                 MayUse(nodes, edges, u, c)
    ensures MayUse(nodes, edges, v, capability) <==>
            exists u :: 0 <= u < |nodes| && (u, v) in edges && Contributes(nodes, built, u, capability)
  {
    hide Reaches;
    if MayUse(nodes, edges, v, capability) {
      var c :| 0 <= c < |nodes| && nodes[c].CapabilityNode? && NodeName(nodes[c]) == capability && Reaches(edges, c, v);
      var w := ReachesBack(edges, c, v);
      if w != c {
        var x := ReachesBack(edges, c, w);
        assert nodes[w].ComponentNode?;
        assert MayUse(nodes, edges, w, capability);
      }
      assert Contributes(nodes, built, w, capability);
    }
    if u :| 0 <= u < |nodes| && (u, v) in edges && Contributes(nodes, built, u, capability) {
      if nodes[u].CapabilityNode? {
        ReachesByEdge(edges, u, v);
      } else {
        assert MayUse(nodes, edges, u, capability);
        var c :| 0 <= c < |nodes| && nodes[c].CapabilityNode? && NodeName(nodes[c]) == capability
          && Reaches(edges, c, u);
        ReachesOn(edges, c, u, v);
      }
    }
  }

  /** Every component may depend on a node of scope "any", and none on another. */
  predicate InScope(node: Node) {
    if node.ComponentNode? then node.component.scope == "any" else node.capability.scope == "any"
  }

  /** A dependency of `v` that is out of scope. */
  predicate Bars(nodes: seq<Node>, edges: Edges, u: nat, v: nat) {
    u < |nodes| && (u, v) in edges && !InScope(nodes[u])
  }

  /** A dependency of `v` that is a component and has not been built. */
  predicate Lacks(nodes: seq<Node>, edges: Edges, built: map<string, Spec>, u: nat, v: nat) {
    u < |nodes| && (u, v) in edges && nodes[u].ComponentNode? && NodeName(nodes[u]) !in built
  }

  /** Builds one component from its dependencies, visited in any order. */
  method ProcessComponent(nodes: seq<Node>, edges: Edges, built: map<string, Spec>, v: nat, rejected: set<nat>)
      returns (r: Result<Spec, RegistryError>)
    requires v < |nodes| && nodes[v].ComponentNode? && forall e :: e in edges ==> e.0 < |nodes|
    ensures r.Success? ==>
              && r.value.name == NodeName(nodes[v]) && r.value.dependents == []
              && forall c :: c in r.value.capabilities <==>
                   exists u :: 0 <= u < |nodes| && (u, v) in edges && Contributes(nodes, built, u, c)
    ensures r.Success? <==>
              (forall u: nat :: !Bars(nodes, edges, u, v) && !Lacks(nodes, edges, built, u, v)) && v !in rejected
    ensures r.Failure? ==>
              match r.error
              case Missing(name) => exists u: nat :: Lacks(nodes, edges, built, u, v) && NodeName(nodes[u]) == name
              case OutOfScope(name) => exists u: nat :: Bars(nodes, edges, u, v) && NodeName(nodes[u]) == name
              case Rejected(node) => node == v && v in rejected
  {
    var dependencies := set e | e in edges && e.1 == v :: e.0;
    var rest := dependencies;
    var capabilities: set<string> := {};
    while rest != {}
      invariant rest <= dependencies
      invariant forall c :: c in capabilities <==>
                  exists u :: 0 <= u < |nodes| && u in dependencies && u !in rest && Contributes(nodes, built, u, c)
      invariant forall u :: u in dependencies && u !in rest ==>
                  !Bars(nodes, edges, u, v) && !Lacks(nodes, edges, built, u, v)
      decreases |rest|
    {
      var u :| u in rest;
      assert (u, v) in edges;
      rest := rest - {u};
      match nodes[u] {
        case ComponentNode(dependency) =>
          if dependency.name !in built {
            assert Lacks(nodes, edges, built, u, v);
            return Failure(Missing(dependency.name));
          }
          if dependency.scope != "any" {
            assert Bars(nodes, edges, u, v);
            return Failure(OutOfScope(dependency.name));
          }
          capabilities := capabilities + built[dependency.name].capabilities;
        case CapabilityNode(capability) =>
          if capability.scope != "any" {
            assert Bars(nodes, edges, u, v);
            return Failure(OutOfScope(capability.name));
          }
          capabilities := capabilities + {capability.name};
      }
    }
    forall u: nat
      ensures !Bars(nodes, edges, u, v) && !Lacks(nodes, edges, built, u, v)
    {
      if (u, v) in edges {
        assert u in dependencies;
      }
    }
    if v in rejected {
      return Failure(Rejected(v));
    }
    r := Success(Spec(NodeName(nodes[v]), capabilities, []));
  }

  /** The components of the first `i` nodes of the order are built, and nothing else. */
  ghost predicate BuiltUpTo(nodes: seq<Node>, edges: Edges, order: seq<nat>, i: nat, built: map<string, Spec>)
    requires i <= |order| && forall j :: 0 <= j < |order| ==> order[j] < |nodes|
  {
    forall j :: 0 <= j < i && nodes[order[j]].ComponentNode? ==>
      && NodeName(nodes[order[j]]) in built
      && built[NodeName(nodes[order[j]])].name == NodeName(nodes[order[j]])
      && forall c :: c in built[NodeName(nodes[order[j]])].capabilities <==> MayUse(nodes, edges, order[j], c)
  }

  /** The dependents of `u` among the first `i` nodes of the order. */
  function Dependents(nodes: seq<Node>, edges: Edges, order: seq<nat>, i: nat, u: nat): seq<string>
    requires i <= |order| && forall j :: 0 <= j < |order| ==> order[j] < |nodes|
  {
    if i == 0 then [] else
    Dependents(nodes, edges, order, i - 1, u) +
    var v := order[i - 1];
    if nodes[v].ComponentNode? && (u, v) in edges && edges[(u, v)] == Dependency then [NodeName(nodes[v])] else []
  }

  ghost predicate NamesApart(nodes: seq<Node>) {
    forall u, v :: 0 <= u < v < |nodes| ==> NodeName(nodes[u]) != NodeName(nodes[v])
  }

  /** Building the next component of the order: all it depends on is there. */
  lemma NextBuilt(nodes: seq<Node>, edges: Edges, order: seq<nat>, i: nat, built: map<string, Spec>, spec: Spec)
    requires NamesApart(nodes) && IntoComponents(nodes, edges) && Topology.Sorted(|nodes|, edges.Keys, order)
    requires i < |order| && BuiltUpTo(nodes, edges, order, i, built) && nodes[order[i]].ComponentNode?
    requires spec.name == NodeName(nodes[order[i]])
    requires forall c :: c in spec.capabilities <==>
               exists u :: 0 <= u < |nodes| && (u, order[i]) in edges && Contributes(nodes, built, u, c)
    ensures BuiltUpTo(nodes, edges, order, i + 1, built[spec.name := spec])
  {
    hide Contributes, MayUse, NodeName;
    DependenciesBuilt(nodes, edges, order, i, built);
    forall c
      ensures c in spec.capabilities <==> MayUse(nodes, edges, order[i], c)
    {
      UnionOfContributions(nodes, edges, built, order[i], c);
    }
    var after := built[spec.name := spec];
    forall j | 0 <= j < i
      ensures NodeName(nodes[order[j]]) != spec.name
    {
      assert order[j] != order[i];
      NameApart(nodes, order[j], order[i]);
    }
  }

  lemma NameApart(nodes: seq<Node>, u: nat, v: nat)
    requires NamesApart(nodes) && u < |nodes| && v < |nodes| && u != v
    ensures NodeName(nodes[u]) != NodeName(nodes[v])
  {
  }

  /** The build order puts every dependency before what depends on it. */
  lemma DependenciesBuilt(nodes: seq<Node>, edges: Edges, order: seq<nat>, i: nat, built: map<string, Spec>)
    requires IntoComponents(nodes, edges) && Topology.Sorted(|nodes|, edges.Keys, order)
    requires i < |order| && BuiltUpTo(nodes, edges, order, i, built)
    ensures forall u :: 0 <= u < |nodes| && (u, order[i]) in edges && nodes[u].ComponentNode? ==>
              NodeName(nodes[u]) in built && forall c :: c in built[NodeName(nodes[u])].capabilities <==>
                MayUse(nodes, edges, u, c)
  {
    hide MayUse, NodeName;
    forall u | 0 <= u < |nodes| && (u, order[i]) in edges && nodes[u].ComponentNode?
      ensures NodeName(nodes[u]) in built && forall c :: c in built[NodeName(nodes[u])].capabilities <==>
                MayUse(nodes, edges, u, c)
    {
      Topology.Placed(|nodes|, edges.Keys, order, u);
      var k: nat :| k < |nodes| && order[k] == u;
      assert (order[k], order[i]) in edges.Keys;
      assert k < i;
    }
  }

  /** Records, for each dependency of node `v`, that `v` depends on it. */
  method AddDependent(nodes: seq<Node>, edges: Edges, built: map<string, Spec>, v: nat)
    returns (after: map<string, Spec>)
    requires v < |nodes| && nodes[v].ComponentNode? && IntoComponents(nodes, edges) && NamesApart(nodes)
    ensures after.Keys == built.Keys
    ensures forall n :: n in after ==> after[n].name == built[n].name && after[n].capabilities == built[n].capabilities
    ensures forall u :: 0 <= u < |nodes| && NodeName(nodes[u]) in after ==>
              after[NodeName(nodes[u])].dependents == built[NodeName(nodes[u])].dependents +
              if nodes[u].ComponentNode? && (u, v) in edges && edges[(u, v)] == Dependency then [NodeName(nodes[v])]
                  else []
  {
    hide NodeName, NamesApart;
    after := built;
    var dependencies := set e | e in edges && e.1 == v && edges[e] == Dependency :: e.0;
    var rest := dependencies;
    while rest != {}
      invariant rest <= dependencies && after.Keys == built.Keys
      invariant forall n :: n in after ==>
                  after[n].name == built[n].name && after[n].capabilities == built[n].capabilities
      invariant forall u :: 0 <= u < |nodes| && NodeName(nodes[u]) in after ==>
                  after[NodeName(nodes[u])].dependents == built[NodeName(nodes[u])].dependents +
                  if nodes[u].ComponentNode? && u in dependencies && u !in rest then [NodeName(nodes[v])] else []
      decreases |rest|
    {
      var u :| u in rest;
      assert (u, v) in edges;
      rest := rest - {u};
      var name := NodeName(nodes[u]);
      forall w | 0 <= w < |nodes| && w != u
        ensures NodeName(nodes[w]) != name
      {
        NameApart(nodes, u, w);
      }
      if nodes[u].ComponentNode? && name in after {
        after := after[name := after[name].(dependents := after[name].dependents + [NodeName(nodes[v])])];
      }
    }
  }

  /**
   * Folds over the build order. If it succeeds, every component is built, may use exactly the capabilities from
   * which it is reachable, and knows its dependents in build order; looking up a dependency never fails.
   */
  method BuildRegistries(nodes: seq<Node>, edges: Edges, order: seq<nat>, rejected: set<nat>)
      returns (r: Result<map<string, Spec>, RegistryError>)
    requires NamesApart(nodes) && IntoComponents(nodes, edges) && Topology.Sorted(|nodes|, edges.Keys, order)
    ensures r.Success? ==> forall v :: 0 <= v < |nodes| && nodes[v].ComponentNode? ==>
              && NodeName(nodes[v]) in r.value
              && (forall c :: c in r.value[NodeName(nodes[v])].capabilities <==> MayUse(nodes, edges, v, c))
              && r.value[NodeName(nodes[v])].dependents == Dependents(nodes, edges, order, |order|, v)
    ensures r.Success? <==>
              forall v :: 0 <= v < |nodes| && nodes[v].ComponentNode? ==>
                v !in rejected && forall u: nat :: !Bars(nodes, edges, u, v)
    ensures r.Failure? ==>
              match r.error
              case Missing(_) => false
              case OutOfScope(name) => exists u: nat, v: nat :: Bars(nodes, edges, u, v) && NodeName(nodes[u]) == name
              case Rejected(node) => node in rejected
  {
    hide NamesApart, IntoComponents, NodeName, Contributes, MayUse, Bars;
    var built: map<string, Spec> := map[];
    EdgesBounded(nodes, edges);
    for i := 0 to |order|
      invariant BuiltUpTo(nodes, edges, order, i, built)
      invariant forall n :: n in built ==> built[n].dependents == []
      invariant forall j :: 0 <= j < i && nodes[order[j]].ComponentNode? ==>
                  order[j] !in rejected && forall u: nat :: !Bars(nodes, edges, u, order[j])
    {
      var v := order[i];
      if nodes[v].ComponentNode? {
        var spec := ProcessComponent(nodes, edges, built, v, rejected);
        DependenciesBuilt(nodes, edges, order, i, built);
        if spec.Failure? {
          return Failure(spec.error);
        }
        NextBuilt(nodes, edges, order, i, built, spec.value);
        built := built[spec.value.name := spec.value];
      }
    }
    for i := 0 to |order|
      invariant BuiltUpTo(nodes, edges, order, |order|, built)
      invariant forall u :: 0 <= u < |nodes| && nodes[u].ComponentNode? && NodeName(nodes[u]) in built ==>
                  built[NodeName(nodes[u])].dependents == Dependents(nodes, edges, order, i, u)
    {
      if nodes[order[i]].ComponentNode? {
        built := AddDependent(nodes, edges, built, order[i]);
      }
    }
    forall v | 0 <= v < |nodes| && nodes[v].ComponentNode?
      ensures NodeName(nodes[v]) in built && forall c :: c in built[NodeName(nodes[v])].capabilities <==>
                MayUse(nodes, edges, v, c)
      ensures v !in rejected && forall u: nat :: !Bars(nodes, edges, u, v)
    {
      Topology.Placed(|nodes|, edges.Keys, order, v);
      var k: nat :| k < |nodes| && order[k] == v;
      assert nodes[order[k]].ComponentNode?;
    }
    r := Success(built);
  }

  lemma EdgesBounded(nodes: seq<Node>, edges: Edges)
    requires IntoComponents(nodes, edges)
    ensures forall e :: e in edges ==> e.0 < |nodes| && e.1 < |nodes|
  {
  }

  /** What the registry needs of a graph, every built graph provides. */
  lemma BuiltGraphFolds(comps: seq<Component>, caps: seq<Capability>,
                        nodes: seq<Node>, nodeMap: map<string, nat>, slots: seq<Slot>, edges: Edges)
    requires Built(comps, caps, nodes, nodeMap, slots, edges)
    ensures NamesApart(nodes) && IntoComponents(nodes, edges)
  {
    LinkedIntoComponents(comps, caps, nodes, nodeMap, slots, edges);
    hide NamesValid, ImportsValid, StageFits, Present, SlotNode, Linked, IntoComponents;
    forall u, v | 0 <= u < v < |nodes|
      ensures NodeName(nodes[u]) != NodeName(nodes[v])
    {
      assert nodeMap[NodeName(nodes[u])] == u && nodeMap[NodeName(nodes[v])] == v;
    }
  }
}
