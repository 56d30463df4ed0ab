/** The input schema derived from parameter mappings, and the arguments assembled from a body that conforms to it. */
module InputSchema {
  import opened Json
  import opened Templates
  import opened Wrappers

  /** A parameter of the function called. */
  datatype Param = Param(name: string, optional: bool, schema: Schema)

  type Path = seq<string>

  // ---- Inserting one leaf ------------------------------------------------------------------------------------------

  /** A fresh object level. */
  const EMPTY := ClosedObject(map[], {})

  function PropertiesOf(node: Schema): map<string, Schema> {
    if node.properties.Properties? then node.properties.of else map[]
  }

  /** Inserts a leaf below a node, creating object levels; None where the path is not made of keys or a leaf differs. */
  function Insert(node: Schema, path: seq<PathSegment>, leaf: Schema): Option<Schema>
    decreases |path|
  {
    if path == [] || !path[0].Key? then None else
    var head, props := path[0].key, PropertiesOf(node);
    if |path| == 1 then
      if head in props then
        (if props[head] == leaf then Some(node.(required := node.required + {head}, properties := Properties(props)))
         else None)
      else Some(node.(required := node.required + {head}, properties := Properties(props[head := leaf])))
    else
      match Insert(if head in props then props[head] else EMPTY, path[1..], leaf)
      case None => None
      case Some(nested) => Some(node.(required := node.required + {head},
                                      properties := Properties(props[head := nested])))
  }

  function Keys(path: Path): seq<PathSegment> {
    seq(|path|, i requires 0 <= i < |path| => Key(path[i]))
  }

  // ---- The tree a set of leaves makes ------------------------------------------------------------------------------

  predicate Below(prefix: Path, p: Path) {
    |prefix| < |p| && p[..|prefix|] == prefix
  }

  /** The property names at the object level under `prefix`. */
  function Heads(leaves: map<Path, Schema>, prefix: Path): set<string> {
    set p | p in leaves && Below(prefix, p) :: p[|prefix|]
  }

  predicate Within(leaves: map<Path, Schema>, n: nat) {
    forall p :: p in leaves ==> 0 < |p| <= n
  }

  /** The object level under `prefix`. */
  function Tree(leaves: map<Path, Schema>, prefix: Path, n: nat): Schema
    requires Within(leaves, n) && |prefix| <= n
    decreases n - |prefix|, 0
  {
    var heads := Heads(leaves, prefix);
    ClosedObject(map h | h in heads ::
                   assert exists p :: p in leaves && Below(prefix, p) && p[|prefix|] == h;
                   Level(leaves, prefix + [h], n),
                 heads)
  }

  /** What stands at `at`: a leaf if a path ends there, else a further level. */
  function Level(leaves: map<Path, Schema>, at: Path, n: nat): Schema
    requires Within(leaves, n) && |at| <= n
    decreases n - |at|, 1
  {
    if at in leaves then leaves[at] else Tree(leaves, at, n)
  }

  lemma HeadFits(leaves: map<Path, Schema>, prefix: Path, n: nat, h: string)
    requires Within(leaves, n) && h in Heads(leaves, prefix)
    ensures |prefix| < n
  {
  }

  /** No path leads through another's leaf. */
  predicate PrefixFree(paths: set<Path>) {
    forall p, q :: p in paths && q in paths ==> !Below(p, q)
  }

  lemma HeadsGrow(leaves: map<Path, Schema>, path: Path, leaf: Schema, prefix: Path)
    ensures Heads(leaves[path := leaf], prefix) == Heads(leaves, prefix) + if Below(prefix, path) then
              {path[|prefix|]} else {}
  {
    var after := leaves[path := leaf];
    forall h | h in Heads(leaves, prefix)
      ensures h in Heads(after, prefix)
    {
      var p :| p in leaves && Below(prefix, p) && p[|prefix|] == h;
      assert p in after;
    }
    if Below(prefix, path) {
      assert path in after;
    }
  }

  /** A leaf elsewhere does not change what stands at `at`. */
  lemma {:induction false} LevelElsewhere(leaves: map<Path, Schema>, path: Path, leaf: Schema, at: Path, n: nat)
    requires Within(leaves[path := leaf], n) && Within(leaves, n) && |at| <= n
    requires at != path && !Below(at, path)
    ensures Level(leaves[path := leaf], at, n) == Level(leaves, at, n)
    decreases n - |at|
  {
    var after := leaves[path := leaf];
    if at !in leaves {
      HeadsGrow(leaves, path, leaf, at);
      forall h | h in Heads(leaves, at)
        ensures |at| < n && Level(after, at + [h], n) == Level(leaves, at + [h], n)
      {
        HeadFits(leaves, at, n, h);
        if path == at + [h] || Below(at + [h], path) {
          BelowHead(at, h, path);
        }
        LevelElsewhere(leaves, path, leaf, at + [h], n);
      }
      assert Tree(after, at, n).properties.of == Tree(leaves, at, n).properties.of;
    }
  }

  /** What is at or below `prefix + [g]` is below `prefix`, with head `g`. */
  lemma BelowHead(prefix: Path, g: string, path: Path)
    requires path == prefix + [g] || Below(prefix + [g], path)
    ensures Below(prefix, path) && path[|prefix|] == g
  {
    var at := prefix + [g];
    assert path[..|at|] == at;
    assert path[..|prefix|] == at[..|prefix|] && path[|prefix|] == at[|prefix|];
  }

  lemma NothingBelow(leaves: map<Path, Schema>, prefix: Path, n: nat)
    requires Within(leaves, n) && |prefix| <= n && forall p :: p in leaves ==> !Below(prefix, p)
    ensures Tree(leaves, prefix, n) == EMPTY
  {
    assert Heads(leaves, prefix) == {};
  }

  /** A head of the level under `prefix` is a leaf or has something below it. */
  lemma HeadBelow(leaves: map<Path, Schema>, prefix: Path, h: string)
    ensures h in Heads(leaves, prefix) <==> prefix + [h] in leaves || exists p :: p in leaves && Below(prefix + [h], p)
  {
    var at := prefix + [h];
    if h in Heads(leaves, prefix) {
      var p :| p in leaves && Below(prefix, p) && p[|prefix|] == h;
      assert p[..|prefix| + 1] == at;
      if |p| == |prefix| + 1 {
        assert p == at;
      } else {
        assert Below(at, p);
      }
    }
    if at in leaves {
      BelowHead(prefix, h, at);
    }
    if p :| p in leaves && Below(at, p) {
      BelowHead(prefix, h, p);
    }
  }

  /** One head changes, the others stay. */
  lemma TreeUpdate(leaves: map<Path, Schema>, path: Path, leaf: Schema, prefix: Path, n: nat)
    requires Within(leaves[path := leaf], n) && Within(leaves, n) && |prefix| <= n && Below(prefix, path)
    ensures |prefix| < n
    ensures var h := path[|prefix|];
            var after := leaves[path := leaf];
            && Tree(after, prefix, n).properties.of ==
                 Tree(leaves, prefix, n).properties.of[h := Level(after, prefix + [h], n)]
            && Tree(after, prefix, n).required == Tree(leaves, prefix, n).required + {h}
  {
    var h := path[|prefix|];
    var after := leaves[path := leaf];
    HeadsGrow(leaves, path, leaf, prefix);
    HeadFits(after, prefix, n, h);
    forall g | g in Heads(leaves, prefix) && g != h
      ensures Level(after, prefix + [g], n) == Level(leaves, prefix + [g], n)
    {
      if path == prefix + [g] || Below(prefix + [g], path) {
        BelowHead(prefix, g, path);
      }
      LevelElsewhere(leaves, path, leaf, prefix + [g], n);
    }
  }

  /**
   * Inserting a leaf into the tree of some leaves gives the tree of one leaf more, or fails where a different leaf
   * already stands; either way the order of insertion leaves no trace.
   */
  lemma {:induction false} InsertTree(leaves: map<Path, Schema>, prefix: Path, suffix: Path, leaf: Schema, n: nat)
    requires Within(leaves, n) && suffix != [] && |prefix + suffix| <= n
    requires PrefixFree(leaves.Keys + {prefix + suffix})
    ensures var path := prefix + suffix;
            Insert(Tree(leaves, prefix, n), Keys(suffix), leaf) ==
            if path in leaves && leaves[path] != leaf then None else Some(Tree(leaves[path := leaf], prefix, n))
    decreases |suffix|
  {
    hide Tree, Heads;
    var path, h := prefix + suffix, suffix[0];
    var at := prefix + [h];
    var after := leaves[path := leaf];
    assert path[..|prefix|] == prefix && path[|prefix|] == h;
    TreeUpdate(leaves, path, leaf, prefix, n);
    TreeShape(leaves, prefix, n);
    TreeShape(after, prefix, n);
    HeadBelow(leaves, prefix, h);
    if |suffix| == 1 {
      assert suffix == [h] && Keys(suffix) == [Key(h)] && at == path;
      assert h in Heads(leaves, prefix) <==> path in leaves;
      assert path in leaves && leaves[path] == leaf ==> after == leaves;
    } else {
      assert path[..|at|] == at && Below(at, path);
      assert at !in leaves;
      assert at + suffix[1..] == path;
      assert Keys(suffix)[1..] == Keys(suffix[1..]);
      InsertTree(leaves, at, suffix[1..], leaf, n);
      if h !in Heads(leaves, prefix) {
        NothingBelow(leaves, at, n);
      }
    }
  }

  /** A tree is a closed object all of whose properties are required. */
  lemma TreeShape(leaves: map<Path, Schema>, prefix: Path, n: nat)
    requires Within(leaves, n) && |prefix| <= n
    ensures var t := Tree(leaves, prefix, n);
            && t.properties.Properties? && t.properties.of.Keys == t.required == Heads(leaves, prefix)
            && t == ClosedObject(t.properties.of, t.required)
            && forall h :: h in t.required ==> |prefix| < n && t.properties.of[h] == Level(leaves, prefix + [h], n)
  {
    forall h | h in Heads(leaves, prefix)
      ensures |prefix| < n
    {
      HeadFits(leaves, prefix, n, h);
    }
  }

  // ---- What the templates contribute ----------------------------------------------------------------------------

  /** The path a piece of a text names, even if its default does not parse. */
  function PathIn(part: Part): Option<seq<PathSegment>> {
    match part
    case Chunk(_) => None
    case Token(ref) => Some(ref.path)
    case BadToken(path) => path
  }

  /** Every path a template names. */
  function Refs(t: Template): set<seq<PathSegment>> {
    match t
    case PathOnly(ref) => {ref.path}
    case Text(parts) => set i | 0 <= i < |parts| && PathIn(parts[i]).Some? :: PathIn(parts[i]).value
    case Array(items) => set i, p | 0 <= i < |items| && p in Refs(items[i]) :: p
    case Object(fields) => set k, p | k in fields && p in Refs(fields[k]) :: p
    case _ => {}
  }

  /** The path under the body, for references rooted there. */
  function BodySubpath(path: seq<PathSegment>): Option<seq<PathSegment>> {
    if path != [] && path[0] == Key("body") then Some(path[1..]) else None
  }

  /** What a parameter's position advertises: its own schema, or that of its encoded form. */
  function SurfaceSchema(param: Param, encoding: map<string, ContentTypeSpec>): Schema {
    if param.name in encoding then SchemaForEncoded(encoding[param.name]) else param.schema
  }

  type Contribution = (seq<PathSegment>, Schema)

  /** A bare body reference puts the parameter's schema at its path; any other body reference puts a string at its. */
  function Contributions(param: Param, t: Template, encoding: map<string, ContentTypeSpec>): set<Contribution> {
    if t.PathOnly? && BodySubpath(t.ref.path).Some? then
        {(BodySubpath(t.ref.path).value, SurfaceSchema(param, encoding))}
    else set p | p in Refs(t) && BodySubpath(p).Some? :: (BodySubpath(p).value, Typed(StringKind))
  }

  function FindParam(params: seq<Param>, name: string): (r: Option<Param>)
    ensures r.Some? ==> r.value in params && r.value.name == name
    ensures r.None? <==> forall i :: 0 <= i < |params| ==> params[i].name != name
  {
    if params == [] then None else if params[0].name == name then Some(params[0]) else FindParam(params[1..], name)
  }

  /** The contributions of all entries, in no order. */
  function AllContributions(params: seq<Param>, mapping: map<string, Template>,
                            encoding: map<string, ContentTypeSpec>): set<Contribution> {
    set name, c | name in mapping && FindParam(params, name).Some?
      && c in Contributions(FindParam(params, name).value, mapping[name], encoding) :: c
  }

  predicate Keyed(path: seq<PathSegment>) {
    path != [] && forall i :: 0 <= i < |path| ==> path[i].Key?
  }

  function Names(path: seq<PathSegment>): (r: Path)
    ensures |r| == |path|
    ensures Keyed(path) ==> Keys(r) == path
  {
    seq(|path|, i requires 0 <= i < |path| => if path[i].Key? then path[i].key else "")
  }

  predicate AllKeyed(cs: set<Contribution>) {
    forall c :: c in cs ==> Keyed(c.0)
  }

  /** No path is given two different schemas. */
  predicate Consistent(cs: set<Contribution>) {
    forall c, d :: c in cs && d in cs && c.0 == d.0 ==> c.1 == d.1
  }

  lemma NamesInjective(p: seq<PathSegment>, q: seq<PathSegment>)
    requires Keyed(p) && Keyed(q) && Names(p) == Names(q)
    ensures p == q
  {
    assert Keys(Names(p)) == Keys(Names(q));
  }

  /** The one schema a path is given. */
  ghost function SchemaAt(cs: set<Contribution>, p: Path): (s: Schema)
    requires AllKeyed(cs) && Consistent(cs) && exists c :: c in cs && Names(c.0) == p
    ensures forall c :: c in cs && Names(c.0) == p ==> c.1 == s
  {
    Unambiguous(cs, p);
    var c :| c in cs && Names(c.0) == p;
    c.1
  }

  ghost function Leaves(cs: set<Contribution>): (m: map<Path, Schema>)
    requires AllKeyed(cs) && Consistent(cs)
    ensures forall c :: c in cs ==> Names(c.0) in m && m[Names(c.0)] == c.1
    ensures forall p :: p in m ==> exists c :: c in cs && Names(c.0) == p
  {
    var paths := set c | c in cs :: Names(c.0);
    map p | p in paths :: SchemaAt(cs, p)
  }

  lemma Unambiguous(cs: set<Contribution>, p: Path)
    requires AllKeyed(cs) && Consistent(cs)
    ensures forall c, d :: c in cs && d in cs && Names(c.0) == p && Names(d.0) == p ==> c.1 == d.1
  {
    forall c, d | c in cs && d in cs && Names(c.0) == p && Names(d.0) == p
      ensures c.1 == d.1
    {
      NamesInjective(c.0, d.0);
    }
  }

  function BodyPaths(cs: set<Contribution>): set<Path> {
    set c | c in cs && Keyed(c.0) :: Names(c.0)
  }

  predicate Bounded(cs: set<Contribution>, n: nat) {
    forall c :: c in cs ==> |c.0| <= n
  }

  lemma LeavesGrow(cs: set<Contribution>, c: Contribution, n: nat)
    requires AllKeyed(cs + {c}) && Consistent(cs + {c}) && Bounded(cs + {c}, n)
    ensures Leaves(cs + {c}) == Leaves(cs)[Names(c.0) := c.1]
    ensures Within(Leaves(cs), n) && Within(Leaves(cs + {c}), n)
  {
    hide Leaves, Names, Keyed;
    var more, fewer := Leaves(cs + {c}), Leaves(cs);
    assert c in cs + {c};
    forall p | p in more && p != Names(c.0)
      ensures p in fewer && fewer[p] == more[p]
    {
      var d :| d in cs + {c} && Names(d.0) == p;
      assert d in cs;
    }
    forall p | p in fewer
      ensures p in more
    {
      var d :| d in cs && Names(d.0) == p;
      assert d in cs + {c};
    }
    forall p | p in more
      ensures 0 < |p| <= n
    {
      var d :| d in cs + {c} && Names(d.0) == p;
      NamesFit(d.0);
    }
  }

  lemma NamesFit(path: seq<PathSegment>)
    requires Keyed(path)
    ensures 0 < |Names(path)| == |path|
  {
  }

  lemma {:induction false} InsertKeyed(node: Schema, path: seq<PathSegment>, leaf: Schema)
    requires Insert(node, path, leaf).Some?
    ensures Keyed(path)
    decreases |path|
  {
    if |path| > 1 {
      var props := PropertiesOf(node);
      InsertKeyed(if path[0].key in props then props[path[0].key] else EMPTY, path[1..], leaf);
      forall i | 0 <= i < |path|
        ensures path[i].Key?
      {
        if i > 0 {
          assert path[i] == path[1..][i - 1];
        }
      }
    }
  }

  /** Whether one contribution disagrees with what is there. */
  lemma Disagrees(cs: set<Contribution>, c: Contribution)
    requires AllKeyed(cs) && Consistent(cs) && Keyed(c.0)
    ensures Consistent(cs + {c}) <==> !(Names(c.0) in Leaves(cs) && Leaves(cs)[Names(c.0)] != c.1)
  {
    if Names(c.0) in Leaves(cs) {
      var d :| d in cs && Names(d.0) == Names(c.0);
      NamesInjective(c.0, d.0);
      assert Leaves(cs)[Names(d.0)] == d.1;
    } else {
      forall d | d in cs
        ensures d.0 != c.0
      {
        assert Names(d.0) in Leaves(cs);
      }
    }
  }

  /**
   * Inserts every contribution, in whatever order the map yields them. Where no path leads through another's leaf,
   * it succeeds exactly when all paths are made of keys and no path is given two schemas, and the result depends on
   * the set of contributions alone.
   */
  method InsertAll(cs: set<Contribution>, ghost n: nat) returns (r: Option<Schema>)
    requires Bounded(cs, n)
    ensures r.Some? ==> AllKeyed(cs)
    ensures PrefixFree(BodyPaths(cs)) ==> (r.Some? <==> AllKeyed(cs) && Consistent(cs))
    ensures PrefixFree(BodyPaths(cs)) && r.Some? ==> Within(Leaves(cs), n) && r.value == Tree(Leaves(cs), [], n)
  {
    hide Insert, Tree, PrefixFree;
    var node, rest := EMPTY, cs;
    NoLeaves(n);
    while rest != {}
      invariant rest <= cs && AllKeyed(cs - rest)
      invariant PrefixFree(BodyPaths(cs)) ==>
                  Consistent(cs - rest) && Within(Leaves(cs - rest), n) && node == Tree(Leaves(cs - rest), [], n)
      decreases |rest|
    {
      var c :| c in rest;
      ghost var done := cs - rest;
      assert cs - (rest - {c}) == done + {c};
      if PrefixFree(BodyPaths(cs)) && Keyed(c.0) {
        NextInsert(cs, done, c, n);
      }
      var next := Insert(node, c.0, c.1);
      if next.None? {
        if PrefixFree(BodyPaths(cs)) && AllKeyed(cs) {
          assert Keyed(c.0);
          StillInconsistent(cs, done + {c});
        }
        return None;
      }
      InsertKeyed(node, c.0, c.1);
      if PrefixFree(BodyPaths(cs)) {
        LeavesGrow(done, c, n);
      }
      node := next.value;
      rest := rest - {c};
    }
    assert cs - rest == cs;
    r := Some(node);
  }

  lemma NoLeaves(n: nat)
    ensures AllKeyed({}) && Consistent({}) && Leaves({}) == map[] && Tree(map[], [], n) == EMPTY
  {
    assert Heads(map[], []) == {};
  }

  lemma StillInconsistent(cs: set<Contribution>, some: set<Contribution>)
    requires some <= cs && !Consistent(some)
    ensures !Consistent(cs)
  {
  }

  lemma NextInsert(cs: set<Contribution>, done: set<Contribution>, c: Contribution, n: nat)
    requires Bounded(cs, n) && PrefixFree(BodyPaths(cs)) && done <= cs && c in cs && Keyed(c.0)
    requires AllKeyed(done) && Consistent(done) && Within(Leaves(done), n)
    ensures Consistent(done + {c}) ==> Within(Leaves(done)[Names(c.0) := c.1], n)
    ensures Insert(Tree(Leaves(done), [], n), c.0, c.1) ==
            if Consistent(done + {c}) then Some(Tree(Leaves(done)[Names(c.0) := c.1], [], n)) else None
  {
    hide Insert, Tree, Leaves;
    Disagrees(done, c);
    var path := Names(c.0);
    assert [] + path == path;
    forall p, q | p in Leaves(done).Keys + {path} && q in Leaves(done).Keys + {path}
      ensures !Below(p, q)
    {
      assert p in BodyPaths(cs) && q in BodyPaths(cs);
    }
    assert Keys(path) == c.0;
    InsertTree(Leaves(done), [], path, c.1, n);
  }

  /** The derived input schema: every entry must name a parameter; its contributions are inserted. */
  method DeriveInputSchema(params: seq<Param>, mapping: map<string, Template>,
                           encoding: map<string, ContentTypeSpec>, ghost n: nat)
      returns (r: Option<Schema>)
    requires Bounded(AllContributions(params, mapping, encoding), n)
    ensures var cs := AllContributions(params, mapping, encoding);
            PrefixFree(BodyPaths(cs)) ==>
              && (r.Some? <==>
                   (forall name :: name in mapping ==> FindParam(params, name).Some?) && AllKeyed(cs) && Consistent(cs))
              && (r.Some? ==> Within(Leaves(cs), n) && r.value == Tree(Leaves(cs), [], n))
  {
    if name :| name in mapping && FindParam(params, name).None? {
      return None;
    }
    r := InsertAll(AllContributions(params, mapping, encoding), n);
  }
}
