/** Component and capability definitions, the checks they pass, and the names the graph derives from them. */
module Definitions {
  import opened Decimals
  import opened Wrappers

  datatype Component = Component(name: string, scope: string, imports: seq<string>, interceptors: seq<string>)

  datatype Capability = Capability(name: string, scope: string)

  // ---- Validation ---------------------------------------------------------------------------------------------

  /** Leading underscores and dollar signs are reserved. */
  predicate ValidName(name: string) {
    !("_" <= name) && '$' !in name
  }

  /** Every definition's name, capabilities first. */
  function Names(comps: seq<Component>, caps: seq<Capability>): (r: seq<string>)
    ensures |r| == |caps| + |comps|
    ensures forall i :: 0 <= i < |caps| ==> r[i] == caps[i].name
    ensures forall i :: 0 <= i < |comps| ==> r[|caps| + i] == comps[i].name
  {
    seq(|caps| + |comps|, i requires 0 <= i < |caps| + |comps| => if i < |caps| then caps[i].name
        else comps[i - |caps|].name)
  }

  /** Names that are valid and occur once. */
  predicate AllFresh(names: seq<string>) {
    && (forall i :: 0 <= i < |names| ==> ValidName(names[i]))
    && (forall i, j :: 0 <= i < j < |names| ==> names[i] != names[j])
  }

  predicate NamesValid(comps: seq<Component>, caps: seq<Capability>) {
    AllFresh(Names(comps, caps))
  }

  predicate ImportsValid(comps: seq<Component>, caps: seq<Capability>) {
    forall i :: 0 <= i < |comps| ==>
      forall x :: x in comps[i].imports ==> ValidName(x) && x in Names(comps, caps)
  }

  lemma FreshNext(names: seq<string>, i: nat)
    requires i < |names|
    ensures names[..i + 1] == names[..i] + [names[i]]
    ensures AllFresh(names[..i + 1]) <==> AllFresh(names[..i]) && ValidName(names[i]) && names[i] !in names[..i]
    ensures AllFresh(names) ==> AllFresh(names[..i + 1])
  {
    var more, fewer := names[..i + 1], names[..i];
    assert more == fewer + [names[i]];
    if AllFresh(more) {
      assert forall k :: 0 <= k < i ==> fewer[k] == more[k] && more[k] != more[i];
    }
  }

  lemma NoNames()
    ensures AllFresh([])
  {
  }

  method ValidateNames(comps: seq<Component>, caps: seq<Capability>) returns (r: Result<(), string>)
    ensures r.Success? <==> NamesValid(comps, caps)
  {
    hide AllFresh, ValidName;
    ghost var names := Names(comps, caps);
    NoNames();
    var seen: set<string> := {};
    for i := 0 to |caps|
      invariant AllFresh(names[..i])
      invariant forall n :: n in seen <==> n in names[..i]
    {
      FreshNext(names, i);
      if !ValidName(caps[i].name) {
        return Failure("invalid name");
      }
      if caps[i].name in seen {
        return Failure("duplicate name");
      }
      seen := seen + {caps[i].name};
    }
    for i := 0 to |comps|
      invariant AllFresh(names[..|caps| + i])
      invariant forall n :: n in seen <==> n in names[..|caps| + i]
    {
      FreshNext(names, |caps| + i);
      if !ValidName(comps[i].name) {
        return Failure("invalid name");
      }
      if comps[i].name in seen {
        return Failure("duplicate name");
      }
      seen := seen + {comps[i].name};
    }
    assert names[..|caps| + |comps|] == names;
    r := Success(());
  }

  method ValidateImports(comps: seq<Component>, caps: seq<Capability>) returns (r: Result<(), string>)
    ensures r.Success? <==> ImportsValid(comps, caps)
  {
    var names := Names(comps, caps);
    for i := 0 to |comps|
      invariant forall j :: 0 <= j < i ==> forall x :: x in comps[j].imports ==> ValidName(x) && x in names
    {
      for k := 0 to |comps[i].imports|
        invariant forall x :: x in comps[i].imports[..k] ==> ValidName(x) && x in names
      {
        var x := comps[i].imports[k];
        if !ValidName(x) || x !in names {
          assert x in comps[i].imports;
          return Failure("invalid or undefined import");
        }
      }
      assert comps[i].imports[..|comps[i].imports|] == comps[i].imports;
    }
    r := Success(());
  }

  // ---- Internal names --------------------------------------------------------------------------------------------

  /** The reserved name of position `k` in the chain of `name`. */
  function Internal(name: string, k: nat): string {
    "_" + name + "$" + Digits(k)
  }

  /** Reserved names tell their component and position apart, and from every valid name. */
  lemma InternalDistinct(a: string, j: nat, b: string, k: nat)
    requires '$' !in a && '$' !in b
    ensures Internal(a, j) == Internal(b, k) ==> a == b && j == k
    ensures !ValidName(Internal(a, j))
  {
    var x, y := Internal(a, j), Internal(b, k);
    assert x[0] == '_' && "_" <= x;
    if x == y {
      assert x[1 + |a|] == '$' && y[1 + |b|] == '$';
      assert forall i :: 1 <= i < 1 + |a| ==> x[i] == a[i - 1];
      assert forall i :: 1 <= i < 1 + |b| ==> y[i] == b[i - 1];
      assert |a| == |b|;
      assert a == x[1..1 + |a|] && b == y[1..1 + |b|];
      assert Digits(j) == x[2 + |a|..] && Digits(k) == y[2 + |b|..];
      DigitsRead(j);
      DigitsRead(k);
    }
  }

  // ---- What belongs in the graph ---------------------------------------------------------------------------------

  /** The first definition of a name. */
  function Find(comps: seq<Component>, name: string): (r: Option<nat>)
    ensures r.Some? ==> r.value < |comps| && comps[r.value].name == name
    ensures r.None? <==> forall i :: 0 <= i < |comps| ==> comps[i].name != name
  {
    if comps == [] then None
    else if comps[0].name == name then Some(0)
    else match Find(comps[1..], name)
      case None => None
      case Some(i) => Some(i + 1)
  }

  predicate Intercepts(comps: seq<Component>, name: string) {
    exists i :: 0 <= i < |comps| && name in comps[i].interceptors
  }

  predicate Imported(comps: seq<Component>, name: string) {
    exists i :: 0 <= i < |comps| && name in comps[i].imports
  }

  /** A component used only as an interceptor has no node of its own. */
  predicate TemplateOnly(comps: seq<Component>, i: nat)
    requires i < |comps|
  {
    Intercepts(comps, comps[i].name) && !Imported(comps, comps[i].name)
  }

  /** Position 0 is the component, the last position the outermost interceptor, which takes over the name. */
  function ChainName(c: Component, k: nat): string {
    if k == |c.interceptors| then c.name else Internal(c.name, k)
  }

  predicate DefinedAt(comps: seq<Component>, i: nat, k: nat)
    requires i < |comps| && k <= |comps[i].interceptors|
  {
    k == 0 || Find(comps, comps[i].interceptors[|comps[i].interceptors| - k]).Some?
  }

  predicate InterceptorsDefined(comps: seq<Component>, i: nat)
    requires i < |comps|
  {
    forall k: nat :: k <= |comps[i].interceptors| ==> DefinedAt(comps, i, k)
  }

  /** What stands at position `k` of the chain: the component itself, then its interceptors, the last declared first. */
  function Content(comps: seq<Component>, i: nat, k: nat): Component
    requires i < |comps| && k <= |comps[i].interceptors| && DefinedAt(comps, i, k)
  {
    if k == 0 then comps[i] else comps[Find(comps, comps[i].interceptors[|comps[i].interceptors| - k]).value]
  }
}
