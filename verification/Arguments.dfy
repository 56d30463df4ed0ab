/** From a message to arguments: on a body the input schema accepts, every parameter gets a value. */
module Arguments {
  import opened Json
  import opened Templates
  import opened InputSchema
  import opened InputAcceptance
  import opened ParamEncoding
  import opened Wrappers

  /** What templates draw on. */
  function TemplateSource(body: Value, headers: Value): Value {
    Obj(map["body" := body, "headers" := headers])
  }

  function NameMatch(param: Param, body: Value): Option<Value> {
    if body.Obj? && param.name in body.fields then Some(body.fields[param.name])
    else if param.optional then Some(Null)
    else None
  }

  /** A string parameter takes other values by their JSON text; null stands for an absent argument. */
  function Stringified(render: Value -> string, param: Param, v: Value): Value {
    if param.schema.kind == Some(StringKind) && !v.Str? && !v.Null? then Str(render(v)) else v
  }

  function Argument(render: Value -> string, param: Param, mapping: Option<map<string, Template>>, source: Value,
                    matchBody: Value): Option<Value> {
    if mapping.Some? && param.name in mapping.value then Substitute(render, mapping.value[param.name], source)
    else NameMatch(param, matchBody)
  }

  /** Without a mapping, a lone parameter's body is wrapped unless it already names the parameter. */
  function NormalizeBody(params: seq<Param>, mapped: bool, body: Value): Option<Value> {
    if mapped then Some(body)
    else if |params| == 1 then
      Some(if body.Obj? && params[0].name in body.fields then body else Obj(map[params[0].name := body]))
    else if body.Obj? then Some(body)
    else None
  }

  /** One value for each parameter, or None where one cannot be had. */
  function Assembled(render: Value -> string, params: seq<Param>, mapping: Option<map<string, Template>>,
                     body: Value, headers: Value): (r: Option<seq<Value>>)
    ensures r.Some? ==> |r.value| == |params|
  {
    match NormalizeBody(params, mapping.Some?, body)
    case None => None
    case Some(matchBody) =>
      var source := TemplateSource(body, headers);
      if forall i :: 0 <= i < |params| ==> Argument(render, params[i], mapping, source, matchBody).Some?
      then Some(seq(|params|, i requires 0 <= i < |params| =>
                    Argument(render, params[i], mapping, source, matchBody).value))
      else None
  }

  function ParamNames(params: seq<Param>): (r: seq<string>)
    ensures |r| == |params|
  {
    seq(|params|, i requires 0 <= i < |params| => params[i].name)
  }

  /** Encoding, then text for string parameters. */
  function Finish(enc: Encoder, render: Value -> string, params: seq<Param>, encoding: map<string, ContentTypeSpec>,
                  args: seq<Value>): (r: Option<seq<Value>>)
    requires |args| == |params|
    ensures r.Some? ==> |r.value| == |params|
  {
    match Encoded(enc, args, ParamNames(params), encoding)
    case None => None
    case Some(encoded) => Some(seq(|params|, i requires 0 <= i < |params| =>
                                   Stringified(render, params[i], encoded[i])))
  }

  /** The argument list of an invocation, or None where it cannot be made. */
  function AllArguments(enc: Encoder, render: Value -> string, params: seq<Param>,
                        mapping: Option<map<string, Template>>,
                        encoding: map<string, ContentTypeSpec>, body: Value, headers: Value): Option<seq<Value>> {
    if params == [] then Some([]) else
    match Assembled(render, params, mapping, body, headers)
    case None => None
    case Some(args) => Finish(enc, render, params, encoding, args)
  }

  method ToInvocation(enc: Encoder, render: Value -> string, params: seq<Param>, mapping: Option<map<string, Template>>,
                      encoding: map<string, ContentTypeSpec>, body: Value, headers: Value)
    returns (r: Option<seq<Value>>)
    ensures r == AllArguments(enc, render, params, mapping, encoding, body, headers)
  {
    hide Substitute, NameMatch, Stringified, Encoded;
    if params == [] {
      return Some([]);
    }
    var source := TemplateSource(body, headers);
    var matchBody := NormalizeBody(params, mapping.Some?, body);
    if matchBody.None? {
      return None;
    }
    var args: seq<Value> := [];
    for i := 0 to |params|
      invariant |args| == i
      invariant forall k :: 0 <= k < i ==>
                  Argument(render, params[k], mapping, source, matchBody.value) == Some(args[k])
    {
      var arg := Argument(render, params[i], mapping, source, matchBody.value);
      if arg.None? {
        return None;
      }
      args := args + [arg.value];
    }
    assert forall k :: 0 <= k < |params| ==> Argument(render, params[k], mapping, source, matchBody.value).Some?;
    assert Assembled(render, params, mapping, body, headers).value == args;
    var slots := new Value[|params|](i requires 0 <= i < |params| => args[i]);
    assert slots[..] == args;
    var ok := ApplyParamEncoding(enc, slots, ParamNames(params), encoding);
    if !ok {
      return None;
    }
    ghost var plain := slots[..];
    for i := 0 to |params|
      invariant forall k :: 0 <= k < i ==> slots[k] == Stringified(render, params[k], plain[k])
      invariant forall k :: i <= k < |params| ==> slots[k] == plain[k]
    {
      slots[i] := Stringified(render, params[i], slots[i]);
    }
    assert Finish(enc, render, params, encoding, args).value == slots[..];
    r := Some(slots[..]);
  }

  // ---- What each argument is --------------------------------------------------------------------------------------

  /** Templates find the body and the headers under their names, and nothing else. */
  lemma SourceHolds(body: Value, headers: Value, path: seq<PathSegment>)
    ensures Lookup(TemplateSource(body, headers), path) ==
              if path == [] then Some(TemplateSource(body, headers))
              else if path[0] == Key("body") then Lookup(body, path[1..])
              else if path[0] == Key("headers") then Lookup(headers, path[1..])
              else None
  {
  }

  /**
   * Before encoding, a mapped parameter has what its template yields, any other the body's property of its name;
   * failing that, the only parameter of a function without mapping has the whole body, and an optional one null. There
   * are no arguments just where a template yields nothing, a required parameter goes without, or a body that is no
   * object is to be taken apart without mapping.
   */
  lemma AssembledExactly(render: Value -> string, params: seq<Param>, mapping: Option<map<string, Template>>,
                         body: Value, headers: Value)
    ensures var r := Assembled(render, params, mapping, body, headers);
            var lone := mapping.None? && |params| == 1;
            && (r.Some? <==>
                  && (mapping.None? && !lone ==> body.Obj?)
                  && forall i :: 0 <= i < |params| ==>
                       var name := params[i].name;
                       if mapping.Some? && name in mapping.value then
                         Substitute(render, mapping.value[name], TemplateSource(body, headers)).Some?
                       else lone || params[i].optional || (body.Obj? && name in body.fields))
            && (r.Some? ==> forall i :: 0 <= i < |params| ==>
                  var name := params[i].name;
                  if mapping.Some? && name in mapping.value then
                    Substitute(render, mapping.value[name], TemplateSource(body, headers)) == Some(r.value[i])
                  else r.value[i] == if body.Obj? && name in body.fields then body.fields[name]
                                     else if lone then body else Null)
  {
    hide Substitute, TemplateSource;
    var matchBody := NormalizeBody(params, mapping.Some?, body);
    if matchBody.Some? {
      forall i | 0 <= i < |params|
        ensures var name := params[i].name;
                var arg := Argument(render, params[i], mapping, TemplateSource(body, headers), matchBody.value);
                if mapping.Some? && name in mapping.value then
                  arg == Substitute(render, mapping.value[name], TemplateSource(body, headers))
                else if body.Obj? && name in body.fields then arg == Some(body.fields[name])
                else if mapping.None? && |params| == 1 then arg == Some(body)
                else arg == if params[i].optional then Some(Null) else None
      {
      }
    }
  }

  /** A string parameter takes any value but text and null by its JSON text; all else is left as it is. */
  lemma FinishedExactly(enc: Encoder, render: Value -> string, params: seq<Param>,
                        encoding: map<string, ContentTypeSpec>, args: seq<Value>)
    requires |args| == |params|
    ensures var encoded := Encoded(enc, args, ParamNames(params), encoding);
            var r := Finish(enc, render, params, encoding, args);
            && (r.Some? <==> encoded.Some?)
            && (r.Some? ==> forall i :: 0 <= i < |params| ==>
                  var v := encoded.value[i];
                  if params[i].schema.kind != Some(StringKind) || v.Str? || v.Null? then r.value[i] == v
                  else r.value[i] == Str(render(v)))
  {
  }

  // ---- Progress with mappings -----------------------------------------------------------------------------------

  predicate TokensParse(t: Template) {
    match t
    case Text(parts) => forall i :: 0 <= i < |parts| ==> !parts[i].BadToken?
    case Array(items) => forall i :: 0 <= i < |items| ==> TokensParse(items[i])
    case Object(fields) => forall k :: k in fields ==> TokensParse(fields[k])
    case _ => true
  }

  lemma {:induction false} TextSucceeds(render: Value -> string, parts: seq<Part>, source: Value)
    requires forall i :: 0 <= i < |parts| ==>
              !parts[i].BadToken? && (parts[i].Token? ==> Resolve(parts[i].ref, source).Some?)
    ensures SubstituteText(render, parts, source).Some?
  {
    if parts != [] {
      TextSucceeds(render, parts[..|parts| - 1], source);
    }
  }

  /** Substitution succeeds when every token parses and every reference leads somewhere. */
  lemma {:induction false} SubstituteSucceeds(render: Value -> string, t: Template, source: Value)
    requires TokensParse(t) && forall p :: p in Refs(t) ==> Lookup(source, p).Some?
    ensures Substitute(render, t, source).Some?
    decreases t
  {
    match t {
      case Text(parts) =>
        forall i | 0 <= i < |parts| && parts[i].Token?
          ensures Resolve(parts[i].ref, source).Some?
        {
          assert PathIn(parts[i]).value in Refs(t);
        }
        TextSucceeds(render, parts, source);
      case Array(items) =>
        forall i | 0 <= i < |items|
          ensures Substitute(render, items[i], source).Some?
        {
          assert forall p :: p in Refs(items[i]) ==> p in Refs(t);
          SubstituteSucceeds(render, items[i], source);
        }
      case Object(fields) =>
        forall k | k in fields
          ensures Substitute(render, fields[k], source).Some?
        {
          assert forall p :: p in Refs(fields[k]) ==> p in Refs(t);
          SubstituteSucceeds(render, fields[k], source);
        }
      case PathOnly(ref) => assert ref.path in Refs(t);
      case _ =>
    }
  }

  /** A body reference looks up its remainder in the body. */
  lemma BodyLookup(body: Value, headers: Value, path: seq<PathSegment>)
    requires BodySubpath(path).Some?
    ensures Lookup(TemplateSource(body, headers), path) == Lookup(body, BodySubpath(path).value)
  {
  }

  /** What makes a mapping usable: names, tokens, references and paths in order, and every required parameter mapped. */
  predicate Usable(params: seq<Param>, mapping: map<string, Template>, encoding: map<string, ContentTypeSpec>) {
    var cs := AllContributions(params, mapping, encoding);
    && (forall i, j :: 0 <= i < j < |params| ==> params[i].name != params[j].name)
    && (forall i :: 0 <= i < |params| && !params[i].optional ==> params[i].name in mapping)
    && (forall name :: name in mapping ==> TokensParse(mapping[name]) && forall p :: p in Refs(mapping[name]) ==>
        BodySubpath(p).Some?)
    && AllKeyed(cs) && Consistent(cs) && PrefixFree(BodyPaths(cs))
  }

  lemma FindOwn(params: seq<Param>, i: nat)
    requires i < |params| && forall j, k :: 0 <= j < k < |params| ==> params[j].name != params[k].name
    ensures FindParam(params, params[i].name) == Some(params[i])
  {
    var r := FindParam(params, params[i].name);
    assert r.Some?;
    var j :| 0 <= j < |params| && params[j] == r.value;
  }

  /** Every reference of a mapped parameter is one of the contributions. */
  lemma RefContributes(params: seq<Param>, mapping: map<string, Template>, encoding: map<string, ContentTypeSpec>,
                       i: nat, p: seq<PathSegment>)
    requires Usable(params, mapping, encoding) && i < |params| && params[i].name in mapping
              && p in Refs(mapping[params[i].name])
    ensures exists c :: c in AllContributions(params, mapping, encoding) && Some(c.0) == BodySubpath(p)
                        && (mapping[params[i].name].PathOnly? ==> c.1 == SurfaceSchema(params[i], encoding))
  {
    hide PrefixFree, Consistent, AllKeyed;
    FindOwn(params, i);
    var t := mapping[params[i].name];
    assert BodySubpath(p).Some?;
    var c := (BodySubpath(p).value, if t.PathOnly? then SurfaceSchema(params[i], encoding) else Typed(StringKind));
    assert c in Contributions(params[i], t, encoding);
  }

  /** A contribution's path leads, in a conforming body, to a value that conforms to its schema. */
  lemma ContributionPresent(cs: set<Contribution>, n: nat, body: Value, c: Contribution)
    requires AllKeyed(cs) && Consistent(cs) && PrefixFree(BodyPaths(cs)) && Within(Leaves(cs), n)
    requires Conforms(body, Tree(Leaves(cs), [], n)) && c in cs
    ensures Lookup(body, c.0).Some? && Conforms(Lookup(body, c.0).value, c.1)
  {
    hide Leaves, Tree, Conforms, Names;
    var p := Names(c.0);
    assert Keys(p) == c.0;
    forall x, y | x in Leaves(cs).Keys && y in Leaves(cs).Keys
      ensures !Below(x, y)
    {
      assert x in BodyPaths(cs) && y in BodyPaths(cs);
    }
    NamesFit(c.0);
    assert Below([], p) && p[0..] == p;
    LeafPresent(body, Leaves(cs), [], n, p);
  }

  /**
   * Progress. With a usable mapping, every body that conforms to the derived input schema gives a value for each
   * parameter, and each value taken whole from the body conforms to the schema its parameter advertised.
   */
  lemma MappedProgress(render: Value -> string, params: seq<Param>, mapping: map<string, Template>,
                       encoding: map<string, ContentTypeSpec>,
                       n: nat, body: Value, headers: Value, i: nat)
    requires Usable(params, mapping, encoding) && Within(Leaves(AllContributions(params, mapping, encoding)), n)
    requires Conforms(body, Tree(Leaves(AllContributions(params, mapping, encoding)), [], n)) && i < |params|
    ensures var args := Assembled(render, params, Some(mapping), body, headers);
            && args.Some?
            && (params[i].name in mapping ==>
                Substitute(render, mapping[params[i].name], TemplateSource(body, headers)) == Some(args.value[i]))
            && (params[i].name in mapping && mapping[params[i].name].PathOnly? ==>
                Conforms(args.value[i], SurfaceSchema(params[i], encoding)))
            && (params[i].name !in mapping ==>
                && params[i].optional
                && args.value[i] ==
                     if body.Obj? && params[i].name in body.fields then body.fields[params[i].name] else Null)
  {
    hide Substitute, Conforms, Tree, Leaves, Lookup, BodySubpath, AllContributions, Contributions;
    var source := TemplateSource(body, headers);
    forall j | 0 <= j < |params|
      ensures Argument(render, params[j], Some(mapping), source, body).Some?
    {
      MappedArgument(render, params, mapping, encoding, n, body, headers, j);
    }
    MappedArgument(render, params, mapping, encoding, n, body, headers, i);
  }

  lemma MappedArgument(render: Value -> string, params: seq<Param>, mapping: map<string, Template>,
                       encoding: map<string, ContentTypeSpec>,
                       n: nat, body: Value, headers: Value, i: nat)
    requires Usable(params, mapping, encoding) && Within(Leaves(AllContributions(params, mapping, encoding)), n)
    requires Conforms(body, Tree(Leaves(AllContributions(params, mapping, encoding)), [], n)) && i < |params|
    ensures var arg := Argument(render, params[i], Some(mapping), TemplateSource(body, headers), body);
            && arg.Some?
            && (params[i].name in mapping && mapping[params[i].name].PathOnly? ==>
                Conforms(arg.value, SurfaceSchema(params[i], encoding)))
  {
    hide Conforms, Tree, Leaves, Lookup, AllContributions, Consistent, PrefixFree, AllKeyed, BodySubpath;
    var cs, source := AllContributions(params, mapping, encoding), TemplateSource(body, headers);
    if params[i].name in mapping {
      var t := mapping[params[i].name];
      forall p | p in Refs(t)
        ensures Lookup(source, p).Some?
        ensures t.PathOnly? ==> Conforms(Lookup(source, p).value, SurfaceSchema(params[i], encoding))
      {
        RefContributes(params, mapping, encoding, i, p);
        var c :| c in cs && Some(c.0) == BodySubpath(p) && (t.PathOnly? ==> c.1 == SurfaceSchema(params[i], encoding));
        ContributionPresent(cs, n, body, c);
        BodyLookup(body, headers, p);
      }
      SubstituteSucceeds(render, t, source);
      if t.PathOnly? {
        assert t.ref.path in Refs(t);
      }
    }
  }

  /** What a mapped parameter's template asks of a body: a value that fits at a bare reference, a text at any other. */
  ghost predicate Satisfies(body: Value, param: Param, t: Template, encoding: map<string, ContentTypeSpec>) {
    forall p :: p in Refs(t) && BodySubpath(p).Some? ==>
      var found := Lookup(body, BodySubpath(p).value);
      found.Some? && if t.PathOnly? then Conforms(found.value, SurfaceSchema(param, encoding)) else found.value.Str?
  }

  /**
   * The schema derived from a mapping accepts just the bodies that give each template what it asks for, and that hold
   * nothing else above the places referred to.
   */
  lemma MappedAccepts(params: seq<Param>, mapping: map<string, Template>, encoding: map<string, ContentTypeSpec>,
                      n: nat, body: Value)
    requires var cs := AllContributions(params, mapping, encoding);
             AllKeyed(cs) && Consistent(cs) && PrefixFree(BodyPaths(cs)) && Within(Leaves(cs), n)
    requires forall name :: name in mapping ==> FindParam(params, name).Some?
    ensures var leaves := Leaves(AllContributions(params, mapping, encoding));
            Conforms(body, Tree(leaves, [], n)) <==>
              && NothingElse(body, leaves, [])
              && forall name :: name in mapping ==>
                   Satisfies(body, FindParam(params, name).value, mapping[name], encoding)
  {
    hide Conforms, Tree, Leaves, NothingElse, Satisfies, AllContributions, LeavesFit, PrefixFree, BodyPaths;
    var cs := AllContributions(params, mapping, encoding);
    LeavesApart(cs);
    TreeAccepts(body, Leaves(cs), [], n);
    LeavesAre(cs, body);
    if LeavesFit(body, Leaves(cs), []) {
      forall name | name in mapping
        ensures Satisfies(body, FindParam(params, name).value, mapping[name], encoding)
      {
        EntryAsks(params, mapping, encoding, name);
        AskedOf(body, FindParam(params, name).value, mapping[name], encoding, cs);
      }
    }
    if forall name :: name in mapping ==> Satisfies(body, FindParam(params, name).value, mapping[name], encoding) {
      forall c | c in cs
        ensures Fits(body, c)
      {
        var name := ContributionFrom(params, mapping, encoding, c);
        AskedFor(body, FindParam(params, name).value, mapping[name], encoding, c);
      }
    }
  }

  ghost predicate Fits(body: Value, c: Contribution) {
    Lookup(body, c.0).Some? && Conforms(Lookup(body, c.0).value, c.1)
  }

  lemma LeavesApart(cs: set<Contribution>)
    requires AllKeyed(cs) && Consistent(cs) && PrefixFree(BodyPaths(cs))
    ensures PrefixFree(Leaves(cs).Keys) && Inside(Leaves(cs), [])
  {
    hide Leaves;
    forall p | p in Leaves(cs)
      ensures p in BodyPaths(cs) && p != []
    {
      var c :| c in cs && Names(c.0) == p;
    }
  }

  lemma LeavesAre(cs: set<Contribution>, body: Value)
    requires AllKeyed(cs) && Consistent(cs)
    ensures LeavesFit(body, Leaves(cs), []) <==> forall c :: c in cs ==> Fits(body, c)
  {
    hide Leaves, Conforms, Lookup;
    if LeavesFit(body, Leaves(cs), []) {
      forall c | c in cs
        ensures Fits(body, c)
      {
        var p := Names(c.0);
        assert Keys(p) == c.0 && p in Leaves(cs) && Below([], p) && p[0..] == p;
      }
    }
    if forall c :: c in cs ==> Fits(body, c) {
      forall p | p in Leaves(cs) && Below([], p)
        ensures var found := Lookup(body, Keys(p[0..])); found.Some? && Conforms(found.value, Leaves(cs)[p])
      {
        var c :| c in cs && Names(c.0) == p;
        assert Keys(p) == c.0 && p[0..] == p;
        assert Fits(body, c);
      }
    }
  }

  lemma EntryAsks(params: seq<Param>, mapping: map<string, Template>, encoding: map<string, ContentTypeSpec>,
                  name: string)
    requires name in mapping && FindParam(params, name).Some?
    ensures Contributions(FindParam(params, name).value, mapping[name], encoding) <=
            AllContributions(params, mapping, encoding)
  {
    hide Contributions;
  }

  lemma ContributionFrom(params: seq<Param>, mapping: map<string, Template>, encoding: map<string, ContentTypeSpec>,
                         c: Contribution) returns (name: string)
    requires c in AllContributions(params, mapping, encoding)
    ensures name in mapping && FindParam(params, name).Some?
    ensures c in Contributions(FindParam(params, name).value, mapping[name], encoding)
  {
    hide Contributions;
    name :| name in mapping && FindParam(params, name).Some?
      && c in Contributions(FindParam(params, name).value, mapping[name], encoding);
  }

  lemma AskedOf(body: Value, param: Param, t: Template, encoding: map<string, ContentTypeSpec>, cs: set<Contribution>)
    requires Contributions(param, t, encoding) <= cs && forall c :: c in cs ==> Fits(body, c)
    ensures Satisfies(body, param, t, encoding)
  {
    hide Conforms, SurfaceSchema, BodySubpath, Refs;
    forall p | p in Refs(t) && BodySubpath(p).Some?
      ensures var found := Lookup(body, BodySubpath(p).value);
              found.Some? && if t.PathOnly? then Conforms(found.value, SurfaceSchema(param, encoding))
                             else found.value.Str?
    {
      OwnRef(t, p);
      var c := (BodySubpath(p).value, if t.PathOnly? then SurfaceSchema(param, encoding) else Typed(StringKind));
      assert c in Contributions(param, t, encoding);
      assert Fits(body, c);
      TextConforms(Lookup(body, c.0).value);
    }
  }

  lemma AskedFor(body: Value, param: Param, t: Template, encoding: map<string, ContentTypeSpec>, c: Contribution)
    requires Satisfies(body, param, t, encoding) && c in Contributions(param, t, encoding)
    ensures Fits(body, c)
  {
    hide Conforms, SurfaceSchema, BodySubpath;
    if t.PathOnly? {
      assert t.ref.path in Refs(t);
    }
    if Lookup(body, c.0).Some? {
      TextConforms(Lookup(body, c.0).value);
    }
  }

  /** A bare reference names one path. */
  lemma OwnRef(t: Template, p: seq<PathSegment>)
    requires p in Refs(t)
    ensures t.PathOnly? ==> p == t.ref.path
  {
  }

  // ---- Without mappings -----------------------------------------------------------------------------------------

  /** One property for each parameter. */
  function UnmappedSchema(params: seq<Param>, encoding: map<string, ContentTypeSpec>): Schema {
    ClosedObject(map name | name in (set i | 0 <= i < |params| :: params[i].name) && FindParam(params, name).Some? ::
                   SurfaceSchema(FindParam(params, name).value, encoding),
                 set i | 0 <= i < |params| && !params[i].optional :: params[i].name)
  }

  /**
   * Without a mapping, a body that conforms to the input schema gives each parameter its own property, or null if it
   * is absent, except where the only parameter is optional and absent: then it gets the whole body.
   */
  lemma UnmappedArguments(render: Value -> string, params: seq<Param>, encoding: map<string, ContentTypeSpec>,
                          body: Value, headers: Value, i: nat)
    requires forall j, k :: 0 <= j < k < |params| ==> params[j].name != params[k].name
    requires Conforms(body, UnmappedSchema(params, encoding)) && i < |params|
    ensures var args := Assembled(render, params, None, body, headers);
            && body.Obj? && args.Some?
            && (args.value[i] == (if params[i].name in body.fields then body.fields[params[i].name] else Null)
                <==> !(|params| == 1 && params[0].name !in body.fields))
  {
    hide UnmappedSchema, Conforms;
    UnmappedAccepts(params, encoding, body);
  }

  /**
   * Without a mapping, the input schema accepts exactly the objects of parameters that give every required one and
   * fit.
   */
  lemma UnmappedAccepts(params: seq<Param>, encoding: map<string, ContentTypeSpec>, body: Value)
    requires forall j, k :: 0 <= j < k < |params| ==> params[j].name != params[k].name
    ensures Conforms(body, UnmappedSchema(params, encoding)) <==>
              && body.Obj?
              && (forall k :: k in body.fields ==> exists i :: 0 <= i < |params| && params[i].name == k)
              && (forall i :: 0 <= i < |params| ==>
                    if params[i].name in body.fields then
                        Conforms(body.fields[params[i].name], SurfaceSchema(params[i], encoding))
                    else params[i].optional)
  {
    hide Conforms, SurfaceSchema;
    var s := UnmappedSchema(params, encoding);
    forall i | 0 <= i < |params|
      ensures params[i].name in s.properties.of && s.properties.of[params[i].name] == SurfaceSchema(params[i], encoding)
      ensures params[i].optional <==> params[i].name !in s.required
    {
      FindOwn(params, i);
    }
    ObjectAccepts(body, s.properties.of, s.required, None);
  }
}
