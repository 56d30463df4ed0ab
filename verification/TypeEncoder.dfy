/** Encoding a WIT type graph into an append-only indexed type table, with memoisation. */
module TypeEncoder {
  import opened Wrappers

  // ---- The source graph -------------------------------------------------------------------------------

  type TypeId = nat
  type InterfaceId = nat

  datatype Prim = Bool | U8 | U16 | U32 | U64 | S8 | S16 | S32 | S64 | F32 | F64 | Char | Text | ErrorContext

  datatype Ty = P(prim: Prim) | Id(id: TypeId)

  /** A compound type without its component types. Flags say which optional components are present. */
  datatype Shape =
    | Record(fields: seq<string>)
    | Tuple
    | Flags(names: seq<string>)
    | Variant(cases: seq<(string, bool)>)
    | Enum(names: seq<string>)
    | Opt
    | Res(ok: bool, err: bool)
    | List
    | Own
    | Borrow
    | Future(payload: bool)
    | Stream(payload: bool)
    | Map
    | FixedLengthList(size: nat)

  datatype Kind = Compound(shape: Shape, parts: seq<Ty>) | Alias(inner: Ty) | Resource | Unknown

  datatype TypeDef = TypeDef(name: Option<string>, owner: Option<InterfaceId>, kind: Kind)

  /** All types, and a rank that shows the graph has no cycle. */
  datatype Graph = Graph(types: seq<TypeDef>, rank: seq<nat>) {
    predicate Has(ty: Ty) {
      ty.Id? ==> ty.id < |types| && ty.id < |rank|
    }

    function Rank(ty: Ty): nat
      requires Has(ty)
    {
      if ty.P? then 0 else rank[ty.id] + 1
    }

    function Parts(id: TypeId): seq<Ty>
      requires id < |types|
    {
      match types[id].kind
      case Compound(_, parts) => parts
      case Alias(inner) => [inner]
      case _ => []
    }

    /** Components are defined and rank below the types they make up. */
    predicate Acyclic() {
      && |rank| == |types|
      && (forall id :: 0 <= id < |types| ==> forall p :: p in Parts(id) ==> Has(p) && Rank(p) <= rank[id])
      && (forall id :: 0 <= id < |types| && types[id].kind.Compound?
                       && (types[id].kind.shape.Own? || types[id].kind.shape.Borrow?) ==>
            |types[id].kind.parts| == 1 && types[id].kind.parts[0].Id?)
    }
  }

  /** Where a type is encoded: the interface, and the component-level indices of foreign types. */
  datatype Scope = Scope(iface: InterfaceId, foreign: map<(InterfaceId, string), nat>)

  predicate IsForeign(s: Scope, def: TypeDef) {
    def.name.Some? && def.owner.Some? && def.owner.value != s.iface
  }

  // ---- What a type means, and what a table means --------------------------------------------------------

  /** A type read structurally; foreign and resource types stay opaque. */
  datatype Tree =
    | Leaf(prim: Prim)
    | Node(shape: Shape, parts: seq<Tree>)
    | Named(name: string, of: Tree)
    | ResourceTree(name: string)
    | Outer(index: nat)

  /** The source type as a tree, or None where encoding must fail. */
  function Meaning(g: Graph, s: Scope, ty: Ty): Option<Tree>
    requires g.Acyclic() && g.Has(ty)
    decreases g.Rank(ty), 0
  {
    match ty
    case P(prim) => Some(Leaf(prim))
    case Id(id) =>
      var def := g.types[id];
      if IsForeign(s, def) then
        if (def.owner.value, def.name.value) in s.foreign
        then Some(Named(def.name.value, Outer(s.foreign[(def.owner.value, def.name.value)])))
        else None
      else match def.kind
        case Alias(inner) => assert inner in g.Parts(id); Meaning(g, s, inner)
        case Resource => if def.name.Some? then Some(ResourceTree(def.name.value)) else None
        case Unknown => None
        case Compound(shape, parts) =>
          assert forall p :: p in parts ==> p in g.Parts(id);
          match Meanings(g, s, parts, g.rank[id])
          case None => None
          case Some(trees) =>
            if (shape.Own? || shape.Borrow?) && trees[0].Leaf? then None
            else Some(if def.name.Some? then Named(def.name.value, Node(shape, trees)) else Node(shape, trees))
  }

  function Meanings(g: Graph, s: Scope, tys: seq<Ty>, bound: nat): (r: Option<seq<Tree>>)
    requires g.Acyclic() && forall t :: t in tys ==> g.Has(t) && g.Rank(t) <= bound
    ensures r.Some? ==> |r.value| == |tys|
    decreases bound, |tys| + 1
  {
    if tys == [] then Some([]) else
    match Meanings(g, s, tys[..|tys| - 1], bound)
    case None => None
    case Some(front) =>
      match Meaning(g, s, tys[|tys| - 1])
      case None => None
      case Some(last) => Some(front + [last])
  }

  /** A type that another interface owns under a name means that name over what the component level holds for it. */
  lemma ForeignMeaning(g: Graph, s: Scope, id: TypeId)
    requires g.Acyclic() && g.Has(Id(id))
    requires g.types[id].name.Some? && g.types[id].owner.Some? && g.types[id].owner.value != s.iface
    ensures var key := (g.types[id].owner.value, g.types[id].name.value);
            Meaning(g, s, Id(id)) == if key in s.foreign then Some(Named(key.1, Outer(s.foreign[key]))) else None
  {
  }

  /** A type of this interface, of none, or without a name. */
  predicate IsLocal(s: Scope, def: TypeDef) {
    def.name.None? || def.owner.None? || def.owner == Some(s.iface)
  }

  /**
   * A local compound type means its own shape over what its parts mean, under its name if it has one, whatever the
   * component level holds. It means nothing just when a part does, or when it is a handle to a primitive.
   */
  lemma LocalMeaning(g: Graph, s: Scope, id: TypeId, shape: Shape, parts: seq<Ty>)
    requires g.Acyclic() && g.Has(Id(id)) && IsLocal(s, g.types[id])
    requires g.types[id].kind == Compound(shape, parts)
    ensures forall p :: p in parts ==> g.Has(p)
    ensures Meaning(g, s, Id(id)).Some? <==>
              && (forall p :: p in parts ==> Meaning(g, s, p).Some?)
              && (shape.Own? || shape.Borrow? ==> !Meaning(g, s, parts[0]).value.Leaf?)
    ensures Meaning(g, s, Id(id)).Some? ==>
              var trees := seq(|parts|, i requires 0 <= i < |parts| => Meaning(g, s, parts[i]).value);
              var name := g.types[id].name;
              Meaning(g, s, Id(id)).value ==
              if name.Some? then Named(name.value, Node(shape, trees)) else Node(shape, trees)
  {
    CompoundMeaning(g, s, id, shape, parts);
    MeaningsAre(g, s, parts, g.rank[id]);
  }

  /** A local alias means what it stands for, a local resource its name. */
  lemma LocalOther(g: Graph, s: Scope, id: TypeId)
    requires g.Acyclic() && g.Has(Id(id)) && IsLocal(s, g.types[id])
    ensures g.types[id].kind.Alias? ==>
              g.Has(g.types[id].kind.inner) && Meaning(g, s, Id(id)) == Meaning(g, s, g.types[id].kind.inner)
    ensures g.types[id].kind.Resource? && g.types[id].name.Some? ==>
              Meaning(g, s, Id(id)) == Some(ResourceTree(g.types[id].name.value))
    ensures g.types[id].kind.Resource? && g.types[id].name.None? ==> Meaning(g, s, Id(id)) == None
    ensures g.types[id].kind.Unknown? ==> Meaning(g, s, Id(id)) == None
  {
    if g.types[id].kind.Alias? {
      assert g.types[id].kind.inner in g.Parts(id);
    }
  }

  lemma {:induction false} MeaningsAre(g: Graph, s: Scope, tys: seq<Ty>, bound: nat)
    requires g.Acyclic() && forall t :: t in tys ==> g.Has(t) && g.Rank(t) <= bound
    ensures Meanings(g, s, tys, bound).Some? <==> forall i :: 0 <= i < |tys| ==> Meaning(g, s, tys[i]).Some?
    ensures Meanings(g, s, tys, bound).Some? ==>
              Meanings(g, s, tys, bound).value == seq(|tys|, i requires 0 <= i < |tys| => Meaning(g, s, tys[i]).value)
    decreases |tys|
  {
    hide Meaning;
    if tys != [] {
      var front := tys[..|tys| - 1];
      MeaningsAre(g, s, front, bound);
      assert forall i :: 0 <= i < |front| ==> front[i] == tys[i];
    }
  }

  /** What an alias chain ends in. */
  function Followed(g: Graph, ty: Ty): Ty
    requires g.Acyclic() && g.Has(ty)
    decreases g.Rank(ty)
  {
    if ty.P? || !g.types[ty.id].kind.Alias? then ty
    else
      assert g.types[ty.id].kind.inner in g.Parts(ty.id);
      Followed(g, g.types[ty.id].kind.inner)
  }

  /** Nothing unknown, no resource without a name, no handle that ends in a primitive, nothing of other interfaces. */
  predicate SelfContained(g: Graph, s: Scope)
    requires g.Acyclic()
  {
    forall id :: 0 <= id < |g.types| ==>
      var def := g.types[id];
      && IsLocal(s, def) && !def.kind.Unknown? && (def.kind.Resource? ==> def.name.Some?)
      && (def.kind.Compound? && (def.kind.shape.Own? || def.kind.shape.Borrow?) ==>
          g.Has(def.kind.parts[0]) && !Followed(g, def.kind.parts[0]).P?)
  }

  /** Every type of an interface that needs no other has a meaning, with no help from the component level. */
  lemma {:induction false} SelfContainedMeans(g: Graph, s: Scope, ty: Ty)
    requires g.Acyclic() && g.Has(ty) && SelfContained(g, s)
    ensures Meaning(g, s, ty).Some? && (Meaning(g, s, ty).value.Leaf? <==> Followed(g, ty).P?)
    decreases g.Rank(ty)
  {
    if ty.Id? {
      var def := g.types[ty.id];
      LocalOther(g, s, ty.id);
      if def.kind.Alias? {
        assert def.kind.inner in g.Parts(ty.id);
        SelfContainedMeans(g, s, def.kind.inner);
      } else if def.kind.Compound? {
        forall p | p in def.kind.parts
          ensures g.Has(p) && Meaning(g, s, p).Some? && (Meaning(g, s, p).value.Leaf? <==> Followed(g, p).P?)
        {
          assert p in g.Parts(ty.id);
          SelfContainedMeans(g, s, p);
        }
        LocalMeaning(g, s, ty.id, def.kind.shape, def.kind.parts);
      }
    }
  }

  /** An encoded value type. */
  datatype Ref = PrimRef(prim: Prim) | TypeRef(index: nat)

  /** One slot of the instance's type index space. */
  datatype Entry =
    | Defined(shape: Shape, parts: seq<Ref>)
    | ExportEq(name: string, of: nat)
    | ExportResource(name: string)
    | OuterAlias(component: nat)
    | FuncType(params: seq<(string, Ref)>, result: Option<Ref>, isAsync: bool)

  predicate RefsBelow(e: Entry, i: nat) {
    match e
    case Defined(_, parts) => forall p :: p in parts ==> p.TypeRef? ==> p.index < i
    case ExportEq(_, of) => of < i
    case FuncType(params, result, _) =>
      && (forall p :: p in params ==> p.1.TypeRef? ==> p.1.index < i)
      && (result.Some? && result.value.TypeRef? ==> result.value.index < i)
    case _ => true
  }

  /** Every entry refers only to earlier entries. */
  predicate Ordered(t: seq<Entry>) {
    forall i :: 0 <= i < |t| ==> RefsBelow(t[i], i)
  }

  predicate InTable(t: seq<Entry>, v: Ref) {
    v.TypeRef? ==> v.index < |t|
  }

  /** Reads the table back. */
  function Read(t: seq<Entry>, v: Ref): Tree
    requires Ordered(t) && InTable(t, v)
    decreases if v.TypeRef? then v.index + 1 else 0, 0
  {
    match v
    case PrimRef(prim) => Leaf(prim)
    case TypeRef(i) =>
      assert RefsBelow(t[i], i);
      match t[i]
      case Defined(shape, parts) => Node(shape, ReadAll(t, parts, i))
      case ExportEq(name, of) => Named(name, Read(t, TypeRef(of)))
      case ExportResource(name) => ResourceTree(name)
      case OuterAlias(component) => Outer(component)
      case FuncType(_, _, _) => Outer(0)
  }

  function ReadAll(t: seq<Entry>, refs: seq<Ref>, bound: nat): (r: seq<Tree>)
    requires Ordered(t) && bound <= |t| && forall v :: v in refs ==> v.TypeRef? ==> v.index < bound
    ensures |r| == |refs|
    decreases bound, |refs| + 1
  {
    if refs == [] then [] else ReadAll(t, refs[..|refs| - 1], bound) + [Read(t, refs[|refs| - 1])]
  }

  // ---- Growth keeps meaning ---------------------------------------------------------------------------------

  /** What an index means never changes as the table grows. */
  lemma {:induction false} ReadGrows(t: seq<Entry>, t': seq<Entry>, v: Ref)
    requires Ordered(t) && Ordered(t') && t <= t' && InTable(t, v)
    ensures InTable(t', v) && Read(t', v) == Read(t, v)
    decreases if v.TypeRef? then v.index + 1 else 0, 0
  {
    if v.TypeRef? {
      assert t'[v.index] == t[v.index] && RefsBelow(t[v.index], v.index);
      match t[v.index] {
        case Defined(shape, parts) => ReadAllGrows(t, t', parts, v.index);
        case ExportEq(name, of) => ReadGrows(t, t', TypeRef(of));
        case _ =>
      }
    }
  }

  lemma {:induction false} ReadAllGrows(t: seq<Entry>, t': seq<Entry>, refs: seq<Ref>, bound: nat)
    requires Ordered(t) && Ordered(t') && t <= t' && bound <= |t|
    requires forall v :: v in refs ==> v.TypeRef? ==> v.index < bound
    ensures ReadAll(t', refs, bound) == ReadAll(t, refs, bound)
    decreases bound, |refs| + 1
  {
    if refs != [] {
      ReadAllGrows(t, t', refs[..|refs| - 1], bound);
      ReadGrows(t, t', refs[|refs| - 1]);
    }
  }

  /** The bound of a group read does not matter. */
  lemma {:induction false} ReadAllBound(t: seq<Entry>, refs: seq<Ref>, a: nat, b: nat)
    requires Ordered(t) && a <= |t| && b <= |t|
    requires forall v :: v in refs ==> v.TypeRef? ==> v.index < a && v.index < b
    ensures ReadAll(t, refs, a) == ReadAll(t, refs, b)
    decreases |refs|
  {
    if refs != [] {
      ReadAllBound(t, refs[..|refs| - 1], a, b);
    }
  }

  lemma OrderedPush(t: seq<Entry>, e: Entry)
    requires Ordered(t) && RefsBelow(e, |t|)
    ensures Ordered(t + [e])
  {
    assert forall i :: 0 <= i < |t| ==> (t + [e])[i] == t[i];
  }

  // ---- The encoder ------------------------------------------------------------------------------------------

  /** What every memoised index must read as. */
  ghost predicate Memo(g: Graph, s: Scope, t: seq<Entry>, memo: map<TypeId, nat>)
    requires g.Acyclic() && Ordered(t)
  {
    forall id :: id in memo ==>
      id < |g.types| && memo[id] < |t| && Meaning(g, s, Id(id)) == Some(Read(t, TypeRef(memo[id])))
  }

  lemma MemoGrows(g: Graph, s: Scope, t: seq<Entry>, t': seq<Entry>, memo: map<TypeId, nat>)
    requires g.Acyclic() && Ordered(t) && Ordered(t') && t <= t' && Memo(g, s, t, memo)
    ensures Memo(g, s, t', memo)
  {
    forall id | id in memo
      ensures memo[id] < |t'| && Meaning(g, s, Id(id)) == Some(Read(t', TypeRef(memo[id])))
    {
      ReadGrows(t, t', TypeRef(memo[id]));
    }
  }

  /** New memo keys rank below `bound`; old ones keep their index. */
  ghost predicate Grew(g: Graph, before: map<TypeId, nat>, after: map<TypeId, nat>, bound: nat) {
    && (forall id :: id in before ==> id in after && after[id] == before[id])
    && (forall id :: id in after && id !in before ==> id < |g.rank| && g.rank[id] < bound)
  }

  predicate IsDefinition(e: Entry) {
    e.Defined? || e.ExportResource?
  }

  /** `owner` names the type each definition was made for; no type owns two. */
  ghost predicate OneDefinitionEach(t: seq<Entry>, owner: seq<Option<TypeId>>, memo: map<TypeId, nat>) {
    && |owner| == |t|
    && (forall i :: 0 <= i < |t| ==> (IsDefinition(t[i]) <==> owner[i].Some?))
    && (forall i :: 0 <= i < |t| && owner[i].Some? ==> owner[i].value in memo)
    && (forall i, j :: 0 <= i < j < |t| && owner[i].Some? ==> owner[i] != owner[j])
  }

  /** A type that is remembered is remembered rightly. */
  lemma MemoSays(g: Graph, s: Scope, t: seq<Entry>, memo: map<TypeId, nat>, id: TypeId)
    requires g.Acyclic() && Ordered(t) && Memo(g, s, t, memo) && id in memo
    ensures id < |g.types| && memo[id] < |t| && Meaning(g, s, Id(id)) == Some(Read(t, TypeRef(memo[id])))
  {
  }

  lemma MemoWith(g: Graph, s: Scope, t: seq<Entry>, owner: seq<Option<TypeId>>, memo: map<TypeId, nat>, id: TypeId,
                 index: nat)
    requires g.Acyclic() && Ordered(t) && Memo(g, s, t, memo) && OneDefinitionEach(t, owner, memo)
    requires id < |g.types| && index < |t| && Meaning(g, s, Id(id)) == Some(Read(t, TypeRef(index)))
    ensures Memo(g, s, t, memo[id := index]) && OneDefinitionEach(t, owner, memo[id := index])
  {
    hide Meaning, Read;
  }

  lemma PrimitiveReads(t: seq<Entry>, prim: Prim)
    requires Ordered(t)
    ensures Read(t, PrimRef(prim)) == Leaf(prim)
  {
  }

  lemma ResourceReads(t: seq<Entry>, name: string)
    ensures RefsBelow(ExportResource(name), |t|)
    ensures Ordered(t + [ExportResource(name)]) ==>
              Read(t + [ExportResource(name)], TypeRef(|t|)) == ResourceTree(name)
  {
    assert (t + [ExportResource(name)])[|t|] == ExportResource(name);
  }

  lemma OneMoreDefinition(t: seq<Entry>, owner: seq<Option<TypeId>>, memo: map<TypeId, nat>, id: TypeId, e: Entry,
                          index: nat)
    requires OneDefinitionEach(t, owner, memo) && id !in memo && IsDefinition(e)
    ensures OneDefinitionEach(t + [e], owner + [Some(id)], memo[id := index])
  {
  }

  lemma NoMoreDefinition(t: seq<Entry>, owner: seq<Option<TypeId>>, memo: map<TypeId, nat>, e: Entry)
    requires OneDefinitionEach(t, owner, memo) && !IsDefinition(e)
    ensures OneDefinitionEach(t + [e], owner + [None], memo)
  {
  }

  class InstanceTypeEncoder {
    const g: Graph
    const scope: Scope
    var table: seq<Entry>
    var typeMap: map<TypeId, nat>
    var funcs: seq<(string, nat)>
    ghost var owner: seq<Option<TypeId>>

    ghost predicate Valid()
      reads this
    {
      && g.Acyclic()
      && Ordered(table)
      && Memo(g, scope, table, typeMap)
      && OneDefinitionEach(table, owner, typeMap)
    }

    /** The type has a meaning, and an index unless it stands for a primitive. */
    ghost predicate Encoded(id: TypeId)
      requires g.Acyclic() && id < |g.types|
      reads this
    {
      var m := Meaning(g, scope, Id(id));
      m.Some? && (id in typeMap || m.value.Leaf?)
    }

    constructor (g: Graph, scope: Scope)
      requires g.Acyclic()
      ensures Valid() && this.g == g && this.scope == scope
      ensures table == [] && typeMap == map[] && funcs == []
    {
      this.g, this.scope := g, scope;
      table, typeMap, funcs, owner := [], map[], [], [];
    }

    /** Appends an entry that defines no type of its own. */
    method Push(e: Entry) returns (index: nat)
      requires Valid() && RefsBelow(e, |table|) && !IsDefinition(e)
      modifies this`table, this`owner
      ensures Valid() && table == old(table) + [e] && index == |old(table)|
    {
      index := |table|;
      OrderedPush(table, e);
      MemoGrows(g, scope, table, table + [e], typeMap);
      table, owner := table + [e], owner + [None];
    }

    /** Aliases a foreign type from the component level and exports it under its name. */
    method ImportType(name: string, component: nat) returns (index: nat)
      requires Valid()
      modifies this`table, this`owner
      ensures Valid() && old(table) <= table && index < |table|
      ensures Read(table, TypeRef(index)) == Named(name, Outer(component))
    {
      var alias := Push(OuterAlias(component));
      index := Push(ExportEq(name, alias));
      assert table[alias] == OuterAlias(component) && table[index] == ExportEq(name, alias);
    }

    /** Defines `id` by a new entry, exports it when named, and remembers where it is. */
    method Define(id: TypeId, e: Entry, name: Option<string>, ghost tree: Tree) returns (index: nat)
      requires Valid() && id < |g.types| && id !in typeMap && RefsBelow(e, |table|) && IsDefinition(e)
      requires Ordered(table + [e]) ==> Read(table + [e], TypeRef(|table|)) == tree
      requires Meaning(g, scope, Id(id)) == Some(if name.Some? then Named(name.value, tree) else tree)
      modifies this`table, this`owner, this`typeMap
      ensures Valid() && old(table) <= table && index < |table|
      ensures typeMap == old(typeMap)[id := index]
      ensures Meaning(g, scope, Id(id)) == Some(Read(table, TypeRef(index)))
    {
      hide Meaning, Ordered, OneDefinitionEach;
      ghost var t0, t1 := table, table + [e];
      index := |table|;
      OrderedPush(table, e);
      OneMoreDefinition(table, owner, typeMap, id, e, if name.Some? then index + 1 else index);
      table, owner := table + [e], owner + [Some(id)];
      if name.Some? {
        ghost var e2 := ExportEq(name.value, index);
        OrderedPush(table, ExportEq(name.value, index));
        NoMoreDefinition(table, owner, typeMap[id := index + 1], e2);
        table, owner := table + [ExportEq(name.value, index)], owner + [None];
        assert table[index + 1] == e2;
        ReadGrows(t1, table, TypeRef(index));
        index := index + 1;
      }
      MemoGrows(g, scope, t0, table, typeMap);
      typeMap := typeMap[id := index];
    }

    /** Encodes one type, defining whatever it needs; a type already defined is only referred to. */
    method EncodeValtype(ty: Ty) returns (r: Result<Ref, string>)
      requires Valid() && g.Has(ty)
      modifies this`table, this`owner, this`typeMap
      ensures Valid() && old(table) <= table && Grew(g, old(typeMap), typeMap, g.Rank(ty))
      ensures r.Success? <==> Meaning(g, scope, ty).Some?
      ensures r.Success? ==> InTable(table, r.value) && Meaning(g, scope, ty) == Some(Read(table, r.value))
      ensures ty.Id? && !IsLocal(scope, g.types[ty.id]) ==>
                var key := (g.types[ty.id].owner.value, g.types[ty.id].name.value);
                && (r.Success? <==> key in scope.foreign)
                && (r.Success? ==> Read(table, r.value) == Named(key.1, Outer(scope.foreign[key])))
      ensures r.Success? && r.value.TypeRef? ==> ty.id in typeMap && typeMap[ty.id] == r.value.index
      decreases g.Rank(ty), 0
    {
      hide Memo, OneDefinitionEach, Meanings, Read, ReadAll, Ordered, RefsBelow;
      if ty.Id? && !IsLocal(scope, g.types[ty.id]) {
        ForeignMeaning(g, scope, ty.id);
      }
      if ty.P? {
        PrimitiveReads(table, ty.prim);
        return Success(PrimRef(ty.prim));
      }
      var id := ty.id;
      if id in typeMap {
        MemoSays(g, scope, table, typeMap, id);
        return Success(TypeRef(typeMap[id]));
      }
      var def := g.types[id];
      if IsForeign(scope, def) {
        var key := (def.owner.value, def.name.value);
        if key !in scope.foreign {
          return Failure("foreign type not pre-aliased at component level");
        }
        var index := ImportType(def.name.value, scope.foreign[key]);
        MemoWith(g, scope, table, owner, typeMap, id, index);
        typeMap := typeMap[id := index];
        return Success(TypeRef(index));
      }
      match def.kind {
        case Compound(shape, parts) =>
          r := EncodeCompound(id, shape, parts);
        case Alias(inner) =>
          assert inner in g.Parts(id);
          r := EncodeValtype(inner);
          if r.Success? && r.value.TypeRef? {
            MemoWith(g, scope, table, owner, typeMap, id, r.value.index);
            typeMap := typeMap[id := r.value.index];
          }
        case Resource =>
          if def.name.None? {
            return Failure("resource must be named");
          }
          ResourceReads(table, def.name.value);
          var index := Define(id, ExportResource(def.name.value), None, ResourceTree(def.name.value));
          r := Success(TypeRef(index));
        case Unknown =>
          r := Failure("unknown type");
      }
    }

    /** Components first, in order, then the definition itself. */
    method EncodeCompound(id: TypeId, shape: Shape, parts: seq<Ty>) returns (r: Result<Ref, string>)
      requires Valid() && g.Has(Id(id)) && id !in typeMap && !IsForeign(scope, g.types[id])
      requires g.types[id].kind == Compound(shape, parts)
      modifies this`table, this`owner, this`typeMap
      ensures Valid() && old(table) <= table && Grew(g, old(typeMap), typeMap, g.rank[id] + 1)
      ensures r.Success? <==> Meaning(g, scope, Id(id)).Some?
      ensures r.Success? ==> InTable(table, r.value) && Meaning(g, scope, Id(id)) == Some(Read(table, r.value))
      ensures r.Success? ==> r.value.TypeRef? && id in typeMap && typeMap[id] == r.value.index
      decreases g.rank[id], |parts| + 2
    {
      hide Memo, OneDefinitionEach, Meaning, Meanings, Read, ReadAll, Ordered, Grew, Graph.Acyclic;
      assert forall p :: p in parts ==> g.Has(p) && g.Rank(p) <= g.rank[id] by {
        PartsBelow(g, id, parts);
      }
      ghost var before := typeMap;
      var refs := EncodeParts(parts, g.rank[id]);
      CompoundMeaning(g, scope, id, shape, parts);
      StillNew(g, before, typeMap, id);
      if refs.Failure? {
        return Failure(refs.error);
      }
      if shape.Own? || shape.Borrow? {
        HandleIndexed(table, refs.value);
      }
      if (shape.Own? || shape.Borrow?) && refs.value[0].PrimRef? {
        return Failure("resource must be an indexed type");
      }
      ghost var trees := ReadAll(table, refs.value, |table|);
      DefinedReads(table, shape, refs.value);
      ghost var with := typeMap;
      var index := Define(id, Defined(shape, refs.value), g.types[id].name, Node(shape, trees));
      Remembered(g, before, with, id, index);
      r := Success(TypeRef(index));
    }

    /** Encodes component types left to right. */
    method EncodeParts(tys: seq<Ty>, ghost bound: nat) returns (r: Result<seq<Ref>, string>)
      requires Valid() && forall t :: t in tys ==> g.Has(t) && g.Rank(t) <= bound
      modifies this`table, this`owner, this`typeMap
      ensures Valid() && old(table) <= table && Grew(g, old(typeMap), typeMap, bound)
      ensures r.Success? <==> Meanings(g, scope, tys, bound).Some?
      ensures r.Success? ==>
                && |r.value| == |tys|
                && (forall v :: v in r.value ==> InTable(table, v))
                && Meanings(g, scope, tys, bound) == Some(ReadAll(table, r.value, |table|))
      decreases bound, |tys| + 1
    {
      hide Memo, OneDefinitionEach, Meaning, Meanings, Read, ReadAll, IsLocal, Graph.Acyclic, Ordered;
      var refs: seq<Ref> := [];
      NoParts(g, scope, table, bound);
      for i := 0 to |tys|
        invariant Valid() && old(table) <= table && Grew(g, old(typeMap), typeMap, bound)
        invariant |refs| == i && forall v :: v in refs ==> InTable(table, v)
        invariant Meanings(g, scope, tys[..i], bound) == Some(ReadAll(table, refs, |table|))
      {
        ghost var t0 := table;
        var v := EncodeValtype(tys[i]);
        if v.Failure? {
          PartFails(g, scope, tys, i, bound);
          return Failure(v.error);
        }
        ReadAllGrows(t0, table, refs, |t0|);
        ReadAllBound(table, refs, |t0|, |table|);
        MeaningsOn(g, scope, tys, i, bound);
        ReadAllOn(table, refs, v.value);
        refs := refs + [v.value];
      }
      assert tys[..|tys|] == tys;
      r := Success(refs);
    }

    /** Encodes a function's type from its parameters and result. */
    method EncodeFunctype(fn: Function) returns (r: Result<nat, string>)
      requires Valid() && forall t :: t in Mentioned(fn) ==> g.Has(t)
      modifies this`table, this`owner, this`typeMap
      ensures Valid() && old(table) <= table && old(typeMap).Keys <= typeMap.Keys
      ensures r.Success? <==> forall t :: t in Mentioned(fn) ==> g.Has(t) && Meaning(g, scope, t).Some?
      ensures r.Success? ==> Describes(g, scope, table, r.value, fn)
    {
      hide Memo, OneDefinitionEach, Meaning, Read, IsLocal, Graph.Acyclic, Ordered;
      var params: seq<(string, Ref)> := [];
      for i := 0 to |fn.params|
        invariant Valid() && old(table) <= table && |params| == i && old(typeMap).Keys <= typeMap.Keys
        invariant forall j :: 0 <= j < i ==>
                    params[j].0 == fn.params[j].0 && ReadsAs(g, scope, table, params[j].1, fn.params[j].1)
      {
        ghost var t0 := table;
        assert fn.params[i].1 == Mentioned(fn)[i];
        var v := EncodeValtype(fn.params[i].1);
        if v.Failure? {
          return Failure(v.error);
        }
        forall j | 0 <= j < i
          ensures ReadsAs(g, scope, table, params[j].1, fn.params[j].1)
        {
          ReadsAsGrows(g, scope, t0, table, params[j].1, fn.params[j].1);
        }
        params := params + [(fn.params[i].0, v.value)];
      }
      var result: Option<Ref> := None;
      if fn.result.Some? {
        ghost var t0 := table;
        assert fn.result.value == Mentioned(fn)[|fn.params|];
        var v := EncodeValtype(fn.result.value);
        if v.Failure? {
          return Failure(v.error);
        }
        forall j | 0 <= j < |params|
          ensures ReadsAs(g, scope, table, params[j].1, fn.params[j].1)
        {
          ReadsAsGrows(g, scope, t0, table, params[j].1, fn.params[j].1);
        }
        result := Some(v.value);
      }
      ghost var t1 := table;
      var index := Push(FuncType(params, result, fn.isAsync));
      assert table[index] == FuncType(params, result, fn.isAsync);
      forall j | 0 <= j < |params|
        ensures ReadsAs(g, scope, table, params[j].1, fn.params[j].1)
      {
        ReadsAsGrows(g, scope, t1, table, params[j].1, fn.params[j].1);
      }
      if fn.result.Some? {
        ReadsAsGrows(g, scope, t1, table, result.value, fn.result.value);
      }
      r := Success(index);
      forall t | t in Mentioned(fn)
        ensures Meaning(g, scope, t).Some?
      {
        var k :| 0 <= k < |Mentioned(fn)| && Mentioned(fn)[k] == t;
        if k < |fn.params| {
          assert ReadsAs(g, scope, table, params[k].1, fn.params[k].1);
        }
      }
    }

    /** Encodes an interface: its own types, then each function under its name. */
    method EncodeInstance(owned: seq<TypeId>, functions: seq<(string, Function)>) returns (r: Result<(), string>)
      requires Valid() && table == [] && typeMap == map[] && funcs == []
      requires forall i :: 0 <= i < |owned| ==> owned[i] < |g.types|
      requires forall fn :: fn in functions ==> forall t :: t in Mentioned(fn.1) ==> g.Has(t)
      modifies this
      ensures Valid()
      ensures r.Success? ==>
                && (forall i :: 0 <= i < |owned| ==> Encoded(owned[i]))
                && |funcs| == |functions|
                && forall i :: 0 <= i < |funcs| ==>
                     funcs[i].0 == functions[i].0 && Describes(g, scope, table, funcs[i].1, functions[i].1)
      ensures r.Failure? ==>
                || (exists i :: 0 <= i < |owned| && Meaning(g, scope, Id(owned[i])).None?)
                || (exists fn, t :: fn in functions && t in Mentioned(fn.1) && Meaning(g, scope, t).None?)
      ensures SelfContained(g, scope) ==> r.Success?
    {
      hide Memo, OneDefinitionEach, Meaning, Read, Graph.Acyclic, Describes, SelfContained, IsLocal, Ordered;
      forall ty | SelfContained(g, scope) && g.Has(ty)
        ensures Meaning(g, scope, ty).Some?
      {
        SelfContainedMeans(g, scope, ty);
      }
      for i := 0 to |owned|
        invariant Valid() && funcs == []
        invariant forall j :: 0 <= j < i ==> Encoded(owned[j])
      {
        RankedAll(g);
        var v := EncodeValtype(Id(owned[i]));
        if v.Failure? {
          return Failure(v.error);
        }
        PrimitiveLeaf(table, v.value);
      }
      for i := 0 to |functions|
        invariant Valid() && |funcs| == i
        invariant forall j :: 0 <= j < |owned| ==> Encoded(owned[j])
        invariant forall j :: 0 <= j < i ==>
                    funcs[j].0 == functions[j].0 && Describes(g, scope, table, funcs[j].1, functions[j].1)
      {
        ghost var t0 := table;
        assert functions[i] in functions;
        var v := EncodeFunctype(functions[i].1);
        if v.Failure? {
          ghost var t :| t in Mentioned(functions[i].1) && Meaning(g, scope, t).None?;
          return Failure(v.error);
        }
        forall j | 0 <= j < i
          ensures Describes(g, scope, table, funcs[j].1, functions[j].1)
        {
          DescribesGrows(g, scope, t0, table, funcs[j].1, functions[j].1);
        }
        funcs := funcs + [(functions[i].0, v.value)];
      }
      r := Success(());
    }
  }

  lemma NoParts(g: Graph, s: Scope, t: seq<Entry>, bound: nat)
    requires g.Acyclic() && Ordered(t)
    ensures forall tys: seq<Ty> :: tys[..0] == []
    ensures Meanings(g, s, [], bound) == Some(ReadAll(t, [], |t|))
  {
  }

  /** One part more. */
  lemma MeaningsOn(g: Graph, s: Scope, tys: seq<Ty>, i: nat, bound: nat)
    requires g.Acyclic() && i < |tys| && forall ty :: ty in tys ==> g.Has(ty) && g.Rank(ty) <= bound
    requires Meanings(g, s, tys[..i], bound).Some? && Meaning(g, s, tys[i]).Some?
    ensures Meanings(g, s, tys[..i + 1], bound) ==
            Some(Meanings(g, s, tys[..i], bound).value + [Meaning(g, s, tys[i]).value])
  {
    hide Meaning, Graph.Acyclic;
    var more := tys[..i + 1];
    assert more[..i] == tys[..i] && more[i] == tys[i];
  }

  lemma ReadAllOn(t: seq<Entry>, refs: seq<Ref>, v: Ref)
    requires Ordered(t) && InTable(t, v) && forall u :: u in refs ==> u.TypeRef? ==> u.index < |t|
    ensures forall u :: u in refs + [v] ==> u.TypeRef? ==> u.index < |t|
    ensures ReadAll(t, refs + [v], |t|) == ReadAll(t, refs, |t|) + [Read(t, v)]
  {
    hide Read, Ordered;
    var all := refs + [v];
    assert all[..|refs|] == refs && all[|refs|] == v;
  }

  lemma PartFails(g: Graph, s: Scope, tys: seq<Ty>, i: nat, bound: nat)
    requires g.Acyclic() && i < |tys| && forall ty :: ty in tys ==> g.Has(ty) && g.Rank(ty) <= bound
    requires Meaning(g, s, tys[i]).None?
    ensures Meanings(g, s, tys, bound).None?
  {
    hide Meaning, Graph.Acyclic;
    var more := tys[..i + 1];
    assert more[..i] == tys[..i];
    MeaningsPrefix(g, s, tys, i + 1, bound);
  }

  lemma RankedAll(g: Graph)
    requires g.Acyclic()
    ensures |g.rank| == |g.types|
  {
  }

  lemma PrimitiveLeaf(t: seq<Entry>, v: Ref)
    requires Ordered(t) && InTable(t, v)
    ensures v.PrimRef? ==> Read(t, v).Leaf?
  {
  }

  /** The parts of a compound type rank below it, and a handle has exactly one, which is indexed. */
  lemma PartsBelow(g: Graph, id: TypeId, parts: seq<Ty>)
    requires g.Acyclic() && g.Has(Id(id)) && g.types[id].kind.Compound? && g.types[id].kind.parts == parts
    ensures forall p :: p in parts ==> g.Has(p) && g.Rank(p) <= g.rank[id]
    ensures g.types[id].kind.shape.Own? || g.types[id].kind.shape.Borrow? ==> |parts| == 1 && parts[0].Id?
  {
    assert forall p :: p in parts ==> p in g.Parts(id);
  }

  /** A compound type of this interface means its parts, under its shape and name. */
  lemma CompoundMeaning(g: Graph, s: Scope, id: TypeId, shape: Shape, parts: seq<Ty>)
    requires g.Acyclic() && g.Has(Id(id)) && !IsForeign(s, g.types[id])
    requires g.types[id].kind == Compound(shape, parts)
    ensures forall p :: p in parts ==> g.Has(p) && g.Rank(p) <= g.rank[id]
    ensures shape.Own? || shape.Borrow? ==> |parts| == 1 && parts[0].Id?
    ensures Meaning(g, s, Id(id)) ==
              var m := Meanings(g, s, parts, g.rank[id]);
              if m.None? || ((shape.Own? || shape.Borrow?) && m.value[0].Leaf?) then None
              else if g.types[id].name.Some? then Some(Named(g.types[id].name.value, Node(shape, m.value)))
              else Some(Node(shape, m.value))
  {
    PartsBelow(g, id, parts);
  }

  /** Encoding the parts of a type does not encode the type. */
  lemma StillNew(g: Graph, before: map<TypeId, nat>, after: map<TypeId, nat>, id: TypeId)
    requires g.Has(Id(id)) && id !in before && Grew(g, before, after, g.rank[id])
    ensures id !in after && Grew(g, before, after, g.rank[id] + 1)
  {
  }

  /** Nor does it matter to the others once the type itself is remembered. */
  lemma Remembered(g: Graph, before: map<TypeId, nat>, after: map<TypeId, nat>, id: TypeId, index: nat)
    requires g.Has(Id(id)) && id !in before && Grew(g, before, after, g.rank[id] + 1)
    ensures Grew(g, before, after[id := index], g.rank[id] + 1)
  {
  }

  /** A definition over encoded parts reads as its shape over what they read as. */
  lemma DefinedReads(t: seq<Entry>, shape: Shape, refs: seq<Ref>)
    requires Ordered(t) && forall v :: v in refs ==> v.TypeRef? ==> v.index < |t|
    ensures Ordered(t + [Defined(shape, refs)])
    ensures Read(t + [Defined(shape, refs)], TypeRef(|t|)) == Node(shape, ReadAll(t, refs, |t|))
  {
    var e := Defined(shape, refs);
    OrderedPush(t, e);
    assert (t + [e])[|t|] == e;
    ReadAllGrows(t, t + [e], refs, |t|);
  }

  /** A function of the interface. */
  datatype Function = Function(params: seq<(string, Ty)>, result: Option<Ty>, isAsync: bool)

  /** Everything a signature mentions. */
  function Mentioned(fn: Function): seq<Ty> {
    seq(|fn.params|, i requires 0 <= i < |fn.params| => fn.params[i].1)
      + (if fn.result.Some? then [fn.result.value] else [])
  }

  /** The entry at `index` is this function's type: same names, same types in order, same asynchrony. */
  ghost predicate Describes(g: Graph, s: Scope, t: seq<Entry>, index: nat, fn: Function)
    requires g.Acyclic() && Ordered(t)
  {
    && index < |t| && t[index].FuncType?
    && t[index].isAsync == fn.isAsync
    && |t[index].params| == |fn.params|
    && (forall i :: 0 <= i < |fn.params| ==>
        t[index].params[i].0 == fn.params[i].0 && ReadsAs(g, s, t, t[index].params[i].1, fn.params[i].1))
    && (fn.result.Some? <==> t[index].result.Some?)
    && (fn.result.Some? ==> ReadsAs(g, s, t, t[index].result.value, fn.result.value))
  }

  ghost predicate ReadsAs(g: Graph, s: Scope, t: seq<Entry>, v: Ref, ty: Ty)
    requires g.Acyclic() && Ordered(t)
  {
    g.Has(ty) && InTable(t, v) && Meaning(g, s, ty) == Some(Read(t, v))
  }

  lemma ReadsAsGrows(g: Graph, s: Scope, t: seq<Entry>, t': seq<Entry>, v: Ref, ty: Ty)
    requires g.Acyclic() && Ordered(t) && Ordered(t') && t <= t' && ReadsAs(g, s, t, v, ty)
    ensures ReadsAs(g, s, t', v, ty)
  {
    ReadGrows(t, t', v);
  }

  lemma DescribesGrows(g: Graph, s: Scope, t: seq<Entry>, t': seq<Entry>, index: nat, fn: Function)
    requires g.Acyclic() && Ordered(t) && Ordered(t') && t <= t' && Describes(g, s, t, index, fn)
    ensures Describes(g, s, t', index, fn)
  {
    hide ReadsAs;
    assert t'[index] == t[index];
    forall i | 0 <= i < |fn.params|
      ensures ReadsAs(g, s, t', t[index].params[i].1, fn.params[i].1)
    {
      ReadsAsGrows(g, s, t, t', t[index].params[i].1, fn.params[i].1);
    }
    if fn.result.Some? {
      ReadsAsGrows(g, s, t, t', t[index].result.value, fn.result.value);
    }
  }

  /** A failing component fails the whole. */
  lemma {:induction false} MeaningsPrefix(g: Graph, s: Scope, tys: seq<Ty>, k: nat, bound: nat)
    requires g.Acyclic() && k <= |tys| && forall t :: t in tys ==> g.Has(t) && g.Rank(t) <= bound
    requires Meanings(g, s, tys[..k], bound).None?
    ensures Meanings(g, s, tys, bound).None?
    decreases |tys|
  {
    if k < |tys| {
      assert tys[..|tys| - 1][..k] == tys[..k];
      MeaningsPrefix(g, s, tys[..|tys| - 1], k, bound);
    } else {
      assert tys[..k] == tys;
    }
  }

  /** A handle's resource is indexed exactly when its tree is not a leaf. */
  lemma HandleIndexed(t: seq<Entry>, refs: seq<Ref>)
    requires Ordered(t) && |refs| == 1 && InTable(t, refs[0])
    ensures ReadAll(t, refs, |t|) == [Read(t, refs[0])]
    ensures Read(t, refs[0]).Leaf? <==> refs[0].PrimRef?
  {
    hide Ordered, RefsBelow;
    assert refs[..0] == [];
    assert ReadAll(t, refs[..0], |t|) == [];
    assert [] + [Read(t, refs[0])] == [Read(t, refs[0])];
  }
}
