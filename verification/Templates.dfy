/** Templates: the schema derived from one at configuration time, and the value substituted into it at run time. */
module Templates {
  import opened Json
  import opened Wrappers

  /** A reference `{path | default}`. */
  datatype Ref = Ref(path: seq<PathSegment>, default: Option<Value>)

  /**
   * A piece of an interpolated text: characters, a reference, or a token that does not parse, with the path before
   * its default if that much does.
   */
  datatype Part = Chunk(text: string) | Token(ref: Ref) | BadToken(path: Option<seq<PathSegment>>)

  datatype Template =
    | PathOnly(ref: Ref)
    | Text(parts: seq<Part>)
    | Array(items: seq<Template>)
    | Object(fields: map<string, Template>)
    | BoolLiteral(b: bool)
    | NumLiteral(n: Number)
    | NullLiteral

  // ---- Resolving paths in schemas --------------------------------------------------------------------------------

  predicate IsNullArm(s: Schema) {
    s.kind == Some(NullKind)
  }

  predicate IsArmOf(s: Schema, name: string) {
    s.properties.Properties? && s.properties.of.Keys == {name}
  }

  /** The primary arm of an option or a result; any other schema as it is. */
  function Unwrap(s: Schema): Schema {
    if !s.oneOf.OneOf? || |s.oneOf.arms| != 2 then s else
    var a, b := s.oneOf.arms[0], s.oneOf.arms[1];
    if !IsNullArm(a) && IsNullArm(b) then a
    else if IsNullArm(a) && !IsNullArm(b) then b
    else if IsArmOf(a, "ok") && IsArmOf(b, "error") then a.properties.of["ok"]
    else if IsArmOf(a, "error") && IsArmOf(b, "ok") then b.properties.of["ok"]
    else s
  }

  function StepSchema(s: Schema, seg: PathSegment): Option<Schema> {
    match seg
    case Key(k) =>
      if s.kind == Some(ObjectKind) && s.properties.Properties? && k in s.properties.of then Some(s.properties.of[k])
          else None
    case Index(i) =>
      if s.kind != Some(ArrayKind) then None
      else if s.prefix.Prefix? then (if i < |s.prefix.of| then Some(s.prefix.of[i]) else None)
      else if s.items.Items? then Some(s.items.schema)
      else None
  }

  /** The schema at the end of the path, before the last unwrapping. */
  function Reach(s: Schema, path: seq<PathSegment>): Option<Schema> {
    if path == [] then Some(s) else
    match StepSchema(Unwrap(s), path[0])
    case None => None
    case Some(next) => Reach(next, path[1..])
  }

  method ResolvePath(s: Schema, path: seq<PathSegment>) returns (r: Option<Schema>)
    ensures r == match Reach(Unwrap(s), path) case None => None case Some(t) => Some(Unwrap(t))
  {
    var current := Unwrap(s);
    for i := 0 to |path|
      invariant Reach(Unwrap(s), path) == Reach(current, path[i..])
    {
      current := Unwrap(current);
      var next := StepSchema(current, path[i]);
      assert path[i..][1..] == path[i + 1..];
      if next.None? {
        return None;
      }
      current := next.value;
    }
    r := Some(Unwrap(current));
  }

  function Resolved(s: Schema, path: seq<PathSegment>): Option<Schema> {
    match Reach(Unwrap(s), path) case None => None case Some(t) => Some(Unwrap(t))
  }

  // ---- The two halves ----------------------------------------------------------------------------------------------

  /** The schema of what a template yields. */
  function Derive(t: Template, source: Schema): Option<Schema> {
    match t
    case PathOnly(ref) => Resolved(source, ref.path)
    case Text(_) => Some(Typed(StringKind))
    case Array(items) =>
      if forall i :: 0 <= i < |items| ==> Derive(items[i], source).Some?
      then Some(TupleOf(seq(|items|, i requires 0 <= i < |items| => Derive(items[i], source).value)))
      else None
    case Object(fields) =>
      if forall k :: k in fields ==> Derive(fields[k], source).Some?
      then Some(ClosedObject(map k | k in fields :: Derive(fields[k], source).value, fields.Keys))
      else None
    case BoolLiteral(_) => Some(Typed(BooleanKind))
    case NumLiteral(_) => Some(Typed(NumberKind))
    case NullLiteral => Some(Typed(NullKind))
  }

  /** A reference yields what is at its path, or its default. */
  function Resolve(ref: Ref, source: Value): Option<Value> {
    match Lookup(source, ref.path)
    case Some(v) => Some(v)
    case None => ref.default
  }

  /** The lookup as written: one cursor into the value. */
  method ResolveValue(ref: Ref, source: Value) returns (r: Option<Value>)
    ensures r == Resolve(ref, source)
  {
    var current := source;
    for i := 0 to |ref.path|
      invariant Lookup(source, ref.path) == Lookup(current, ref.path[i..])
    {
      assert ref.path[i..][1..] == ref.path[i + 1..];
      var next := Step(current, ref.path[i]);
      if next.None? {
        return ref.default;
      }
      current := next.value;
    }
    r := Some(current);
  }

  /** Text of a value inside an interpolation; other values by their JSON text. */
  function RenderScalar(render: Value -> string, v: Value): string {
    match v
    case Str(s) => s
    case Null => ""
    case _ => render(v)
  }

  function SubstituteText(render: Value -> string, parts: seq<Part>, source: Value): Option<string> {
    if parts == [] then Some("") else
    match SubstituteText(render, parts[..|parts| - 1], source)
    case None => None
    case Some(front) =>
      match parts[|parts| - 1]
      case Chunk(text) => Some(front + text)
      case BadToken(_) => None
      case Token(ref) =>
        match Resolve(ref, source)
        case None => None
        case Some(v) => Some(front + RenderScalar(render, v))
  }

  function Substitute(render: Value -> string, t: Template, source: Value): Option<Value> {
    match t
    case PathOnly(ref) => Resolve(ref, source)
    case Text(parts) =>
      (match SubstituteText(render, parts, source)
       case None => None
       case Some(s) => Some(Str(s)))
    case Array(items) =>
      if forall i :: 0 <= i < |items| ==> Substitute(render, items[i], source).Some?
      then Some(Arr(seq(|items|, i requires 0 <= i < |items| => Substitute(render, items[i], source).value)))
      else None
    case Object(fields) =>
      if forall k :: k in fields ==> Substitute(render, fields[k], source).Some?
      then Some(Obj(map k | k in fields :: Substitute(render, fields[k], source).value))
      else None
    case BoolLiteral(b) => Some(Bool(b))
    case NumLiteral(n) => Some(Num(n))
    case NullLiteral => Some(Null)
  }

  // ---- Soundness ----------------------------------------------------------------------------------------------------

  /** An option as the system emits it, of a type whose values are never null. */
  predicate IsOption(s: Schema) {
    && s.oneOf.OneOf? && |s.oneOf.arms| == 2
    && s == ANY.(oneOf := s.oneOf) && s.oneOf.arms[1] == Typed(NullKind)
    && !IsNullArm(s.oneOf.arms[0]) && !Conforms(Null, s.oneOf.arms[0])
  }

  /** Every schema inside that unwrapping changes is an option; in particular there is no nested result. */
  predicate OptionsOnly(s: Schema) {
    && (Unwrap(s) == s || IsOption(s))
    && (s.properties.Properties? ==> forall k :: k in s.properties.of ==> OptionsOnly(s.properties.of[k]))
    && (s.prefix.Prefix? ==> forall i :: 0 <= i < |s.prefix.of| ==> OptionsOnly(s.prefix.of[i]))
    && (s.items.Items? ==> OptionsOnly(s.items.schema))
    && (s.oneOf.OneOf? ==> forall i :: 0 <= i < |s.oneOf.arms| ==> OptionsOnly(s.oneOf.arms[i]))
  }

  lemma NullKindOnlyNull(v: Value)
    ensures Conforms(v, Typed(NullKind)) <==> v == Null
  {
  }

  /** A schema with no keyword but `oneOf` accepts what exactly one arm accepts. */
  lemma OnlyOneOf(v: Value, s: Schema)
    requires s == ANY.(oneOf := s.oneOf)
    ensures Conforms(v, s) <==> ExactlyOne(v, s)
  {
    hide ExactlyOne;
    assert ConformsHere(v, s);
    assert v.Obj? ==> forall k :: k in v.fields ==> FieldConforms(k, v.fields[k], s);
    assert v.Arr? ==> forall i :: 0 <= i < |v.items| ==> ItemConforms(i, v.items[i], s);
  }

  lemma TwoArms(v: Value, s: Schema)
    requires s.oneOf.OneOf? && |s.oneOf.arms| == 2
    ensures ExactlyOne(v, s) <==> (Conforms(v, s.oneOf.arms[0]) <==> !Conforms(v, s.oneOf.arms[1]))
  {
    hide Conforms, ExactlyOne;
    var a, b := Conforms(v, s.oneOf.arms[0]), Conforms(v, s.oneOf.arms[1]);
    if ExactlyOne(v, s) {
      var i := AloneArm(v, s);
      assert i == 0 || i == 1;
    }
    if a && !b {
      ArmAlone(v, s, 0);
    }
    if b && !a {
      ArmAlone(v, s, 1);
    }
  }

  lemma AloneArm(v: Value, s: Schema) returns (i: nat)
    requires s.oneOf.OneOf? && ExactlyOne(v, s)
    ensures i < |s.oneOf.arms| && Conforms(v, s.oneOf.arms[i])
    ensures forall j :: 0 <= j < |s.oneOf.arms| && j != i ==> !Conforms(v, s.oneOf.arms[j])
  {
    hide Conforms;
    i :| 0 <= i < |s.oneOf.arms| && Conforms(v, s.oneOf.arms[i])
         && forall j :: 0 <= j < |s.oneOf.arms| && j != i ==> !Conforms(v, s.oneOf.arms[j]);
  }

  lemma ArmAlone(v: Value, s: Schema, i: nat)
    requires s.oneOf.OneOf? && i < |s.oneOf.arms| && Conforms(v, s.oneOf.arms[i])
    requires forall j :: 0 <= j < |s.oneOf.arms| && j != i ==> !Conforms(v, s.oneOf.arms[j])
    ensures ExactlyOne(v, s)
  {
    hide Conforms;
  }

  /** An option's value is null or conforms to its primary arm. */
  lemma OptionValue(v: Value, s: Schema)
    requires IsOption(s)
    ensures Conforms(v, s) <==> v == Null || Conforms(v, s.oneOf.arms[0])
  {
    NullKindOnlyNull(v);
    hide Conforms, ExactlyOne;
    OnlyOneOf(v, s);
    TwoArms(v, s);
  }

  lemma UnwrapOption(v: Value, s: Schema)
    requires OptionsOnly(s) && Conforms(v, s)
    ensures OptionsOnly(Unwrap(s)) && Unwrap(Unwrap(s)) == Unwrap(s)
    ensures v != Null ==> Conforms(v, Unwrap(s))
    ensures v == Null ==> (Conforms(v, Unwrap(s)) <==> !IsOption(s))
  {
    if IsOption(s) {
      hide Conforms;
      OptionValue(v, s);
      var p := Unwrap(s);
      assert p == s.oneOf.arms[0] && OptionsOnly(p);
      if IsOption(p) {
        OptionValue(Null, p);
      }
    }
  }

  lemma StepConforms(v: Value, s: Schema, seg: PathSegment)
    requires Conforms(v, s) && StepSchema(s, seg).Some? && Step(v, seg).Some?
    ensures Conforms(Step(v, seg).value, StepSchema(s, seg).value)
  {
    match seg {
      case Key(k) => assert FieldConforms(k, v.fields[k], s);
      case Index(i) => assert ItemConforms(i, v.items[i], s);
    }
  }

  lemma StepOptionsOnly(s: Schema, seg: PathSegment)
    requires OptionsOnly(s) && StepSchema(s, seg).Some?
    ensures OptionsOnly(StepSchema(s, seg).value)
  {
  }

  /** Looking up a path in a conforming value leads to a value that conforms to the schema reached by the path. */
  lemma {:induction false} ReachConforms(v: Value, s: Schema, path: seq<PathSegment>)
    requires OptionsOnly(s) && Conforms(v, s) && Reach(s, path).Some? && Lookup(v, path).Some?
    ensures OptionsOnly(Reach(s, path).value) && Conforms(Lookup(v, path).value, Reach(s, path).value)
    decreases |path|
  {
    if path == [] {
    } else {
      hide OptionsOnly, Conforms, Unwrap, IsOption;
      UnwrapOption(v, s);
      StepConforms(v, Unwrap(s), path[0]);
      StepOptionsOnly(Unwrap(s), path[0]);
      ReachConforms(Step(v, path[0]).value, StepSchema(Unwrap(s), path[0]).value, path[1..]);
    }
  }

  /** The path ends at an option whose value is null: the case the derived schema leaves out. */
  predicate NullAtOption(path: seq<PathSegment>, v: Value, s: Schema) {
    && Lookup(v, path) == Some(Null)
    && if path == [] then IsOption(s) else Reach(s, path).Some? && IsOption(Reach(s, path).value)
  }

  /**
   * Where values are null at an option, the schema derived for a bare reference does not admit them; elsewhere it
   * does.
   */
  lemma PathSound(v: Value, s: Schema, path: seq<PathSegment>)
    requires OptionsOnly(s) && Conforms(v, s) && Resolved(s, path).Some? && Lookup(v, path).Some?
    ensures Conforms(Lookup(v, path).value, Resolved(s, path).value) <==> !NullAtOption(path, v, s)
  {
    hide OptionsOnly, Conforms, Unwrap, IsOption, StepSchema;
    UnwrapOption(v, s);
    if path == [] {
    } else {
      ReachTwice(v, s, path);
      assert Reach(Unwrap(s), path) == Reach(s, path);
      ReachConforms(v, s, path);
      UnwrapOption(Lookup(v, path).value, Reach(s, path).value);
    }
  }

  lemma ReachTwice(v: Value, s: Schema, path: seq<PathSegment>)
    requires OptionsOnly(s) && Conforms(v, s) && path != []
    ensures Reach(Unwrap(s), path) == Reach(s, path)
  {
    hide OptionsOnly, Conforms, IsOption, Unwrap;
    UnwrapOption(v, s);
  }

  predicate NoDefaults(t: Template) {
    match t
    case PathOnly(ref) => ref.default.None?
    case Array(items) => forall i :: 0 <= i < |items| ==> NoDefaults(items[i])
    case Object(fields) => forall k :: k in fields ==> NoDefaults(fields[k])
    case _ => true
  }

  /** No bare reference of the template picks up a null at an option. */
  predicate AvoidsNulls(t: Template, v: Value, s: Schema) {
    match t
    case PathOnly(ref) => !NullAtOption(ref.path, v, s)
    case Array(items) => forall i :: 0 <= i < |items| ==> AvoidsNulls(items[i], v, s)
    case Object(fields) => forall k :: k in fields ==> AvoidsNulls(fields[k], v, s)
    case _ => true
  }

  lemma TupleConforms(vs: seq<Value>, ss: seq<Schema>)
    requires |vs| == |ss|
    ensures Conforms(Arr(vs), TupleOf(ss)) <==> forall i :: 0 <= i < |vs| ==> Conforms(vs[i], ss[i])
  {
    var v, s := Arr(vs), TupleOf(ss);
    assert ConformsHere(v, s) && ExactlyOne(v, s);
    assert forall i :: 0 <= i < |vs| ==> (ItemConforms(i, vs[i], s) <==> Conforms(vs[i], ss[i]));
  }

  lemma ObjectConforms(vs: map<string, Value>, ss: map<string, Schema>)
    requires vs.Keys == ss.Keys
    ensures Conforms(Obj(vs), ClosedObject(ss, ss.Keys)) <==> forall k :: k in vs ==> Conforms(vs[k], ss[k])
  {
    var v, s := Obj(vs), ClosedObject(ss, ss.Keys);
    assert ConformsHere(v, s) && ExactlyOne(v, s);
    assert forall k :: k in vs ==> (FieldConforms(k, vs[k], s) <==> Conforms(vs[k], ss[k]));
  }

  /**
   * Template type soundness. If a value conforms to the source schema, and both the derivation and the
   * substitution succeed, the substituted value conforms to the derived schema exactly when no bare reference
   * picks up a null at an option.
   */
  lemma {:induction false} TemplateSound(render: Value -> string, t: Template, v: Value, s: Schema)
    requires OptionsOnly(s) && Conforms(v, s) && NoDefaults(t)
    requires Derive(t, s).Some? && Substitute(render, t, v).Some?
    ensures Conforms(Substitute(render, t, v).value, Derive(t, s).value) <==> AvoidsNulls(t, v, s)
    decreases t, 1
  {
    hide OptionsOnly, Resolved, NullAtOption, Lookup, SubstituteText, RenderScalar;
    match t {
      case PathOnly(ref) => PathSound(v, s, ref.path);
      case Array(_) => ArraySound(render, t, v, s);
      case Object(_) => ObjectSound(render, t, v, s);
      case _ =>
    }
  }

  lemma {:induction false} ArraySound(render: Value -> string, t: Template, v: Value, s: Schema)
    requires t.Array? && OptionsOnly(s) && Conforms(v, s) && NoDefaults(t)
    requires Derive(t, s).Some? && Substitute(render, t, v).Some?
    ensures Conforms(Substitute(render, t, v).value, Derive(t, s).value) <==> AvoidsNulls(t, v, s)
    decreases t, 0
  {
    hide OptionsOnly, Conforms, Resolve, Resolved, NullAtOption, SubstituteText;
    var vs := Substitute(render, t, v).value.items;
    var ss := Derive(t, s).value.prefix.of;
    TupleConforms(vs, ss);
    forall i | 0 <= i < |vs|
      ensures Conforms(vs[i], ss[i]) <==> AvoidsNulls(t.items[i], v, s)
    {
      TemplateSound(render, t.items[i], v, s);
    }
  }

  lemma {:induction false} ObjectSound(render: Value -> string, t: Template, v: Value, s: Schema)
    requires t.Object? && OptionsOnly(s) && Conforms(v, s) && NoDefaults(t)
    requires Derive(t, s).Some? && Substitute(render, t, v).Some?
    ensures Conforms(Substitute(render, t, v).value, Derive(t, s).value) <==> AvoidsNulls(t, v, s)
    decreases t, 0
  {
    hide OptionsOnly, Conforms, Resolve, Resolved, NullAtOption, SubstituteText;
    var vs := Substitute(render, t, v).value.fields;
    var ss := Derive(t, s).value.properties.of;
    ObjectConforms(vs, ss);
    assert Derive(t, s).value == ClosedObject(ss, ss.Keys) && vs.Keys == t.fields.Keys;
    forall k | k in t.fields
      ensures Conforms(vs[k], ss[k]) <==> AvoidsNulls(t.fields[k], v, s)
    {
      TemplateSound(render, t.fields[k], v, s);
    }
  }

  /** Without `oneOf` anywhere there is nothing to avoid. */
  predicate OneOfFree(s: Schema) {
    && s.oneOf.NoOneOf?
    && (s.properties.Properties? ==> forall k :: k in s.properties.of ==> OneOfFree(s.properties.of[k]))
    && (s.prefix.Prefix? ==> forall i :: 0 <= i < |s.prefix.of| ==> OneOfFree(s.prefix.of[i]))
    && (s.items.Items? ==> OneOfFree(s.items.schema))
  }

  lemma {:induction false} OneOfFreeOptionsOnly(s: Schema)
    requires OneOfFree(s)
    ensures OptionsOnly(s)
  {
    if s.properties.Properties? {
      forall k | k in s.properties.of
        ensures OptionsOnly(s.properties.of[k])
      {
        OneOfFreeOptionsOnly(s.properties.of[k]);
      }
    }
    if s.prefix.Prefix? {
      forall i | 0 <= i < |s.prefix.of|
        ensures OptionsOnly(s.prefix.of[i])
      {
        OneOfFreeOptionsOnly(s.prefix.of[i]);
      }
    }
    if s.items.Items? {
      OneOfFreeOptionsOnly(s.items.schema);
    }
  }

  lemma {:induction false} OneOfFreeReach(s: Schema, path: seq<PathSegment>)
    requires OneOfFree(s) && Reach(s, path).Some?
    ensures OneOfFree(Reach(s, path).value)
    decreases |path|
  {
    if path != [] {
      OneOfFreeReach(StepSchema(s, path[0]).value, path[1..]);
    }
  }

  lemma {:induction false} OneOfFreeAvoids(t: Template, v: Value, s: Schema)
    requires OneOfFree(s)
    ensures AvoidsNulls(t, v, s)
    decreases t
  {
    match t {
      case PathOnly(ref) =>
        if Reach(s, ref.path).Some? {
          OneOfFreeReach(s, ref.path);
        }
      case Array(items) =>
        forall i | 0 <= i < |items|
          ensures AvoidsNulls(items[i], v, s)
        {
          OneOfFreeAvoids(items[i], v, s);
        }
      case Object(fields) =>
        forall k | k in fields
          ensures AvoidsNulls(fields[k], v, s)
        {
          OneOfFreeAvoids(fields[k], v, s);
        }
      case _ =>
    }
  }

  /** For schemas without `oneOf`, the substituted value always conforms to the derived schema. */
  lemma TemplateSoundOneOfFree(render: Value -> string, t: Template, v: Value, s: Schema)
    requires OneOfFree(s) && Conforms(v, s) && NoDefaults(t)
    requires Derive(t, s).Some? && Substitute(render, t, v).Some?
    ensures Conforms(Substitute(render, t, v).value, Derive(t, s).value)
  {
    hide OneOfFree, OptionsOnly, Conforms, Derive, Substitute, AvoidsNulls;
    OneOfFreeOptionsOnly(s);
    OneOfFreeAvoids(t, v, s);
    TemplateSound(render, t, v, s);
  }

  // ---- Result decoding ------------------------------------------------------------------------------------------

  /** The content type of an encoded field: fixed, or read from the result. */
  datatype ContentTypeSpec = Fixed(contentType: string) | From(path: seq<PathSegment>)

  predicate Supported(contentType: string) {
    contentType == "application/json" || contentType == "text/plain"
  }

  /** How bytes are read; each may fail. */
  datatype Codec = Codec(json: seq<nat> -> Option<Value>, utf8: seq<nat> -> Option<string>)

  function SchemaForEncoded(spec: ContentTypeSpec): Schema {
    if spec == Fixed("text/plain") then Typed(StringKind) else ANY
  }

  /** The schema after decoding: decoded fields replaced, if there is an object schema to replace them in. */
  function DecodedSchema(s: Schema, decoding: map<string, ContentTypeSpec>): Schema {
    if s.properties.NoProperties? then s else
    s.(properties := Properties(s.properties.of + map k | k in decoding :: SchemaForEncoded(decoding[k])))
  }

  function ContentTypeOf(v: Value, spec: ContentTypeSpec): Option<string> {
    match spec
    case Fixed(ct) => Some(ct)
    case From(path) => match Lookup(v, path) case Some(Str(ct)) => Some(ct) case _ => None
  }

  predicate IsByte(v: Value) {
    v.Num? && v.n.Int? && 0 <= v.n.i <= 255
  }

  /** A list of numbers as bytes, each as it stands. */
  function Bytes(items: seq<Value>): (r: Option<seq<nat>>)
    ensures r.Some? <==> forall i :: 0 <= i < |items| ==> IsByte(items[i])
    ensures r.Some? ==> |r.value| == |items| && forall i :: 0 <= i < |items| ==> items[i] == Num(Int(r.value[i]))
  {
    if items == [] then Some([]) else
    match Bytes(items[..|items| - 1])
    case None => None
    case Some(front) =>
      match items[|items| - 1]
      case Num(Int(i)) => if 0 <= i <= 255 then Some(front + [i]) else None
      case _ => None
  }

  function DecodeBytes(codec: Codec, bytes: seq<nat>, contentType: string): Option<Value> {
    if contentType == "application/json" then codec.json(bytes)
    else match codec.utf8(bytes) case Some(s) => Some(Str(s)) case None => None
  }

  /** One decoded field, its content type read from the original result. */
  function DecodedField(codec: Codec, v: Value, k: string, spec: ContentTypeSpec): Option<Value> {
    if !v.Obj? || k !in v.fields || !v.fields[k].Arr? then None else
    match ContentTypeOf(v, spec)
    case None => None
    case Some(ct) =>
      if !Supported(ct) then None else
      match Bytes(v.fields[k].items)
      case None => None
      case Some(bytes) => DecodeBytes(codec, bytes, ct)
  }

  /** All fields at once, or nothing. */
  function Decoded(codec: Codec, v: Value, decoding: map<string, ContentTypeSpec>): Option<Value> {
    if v.Obj? && forall k :: k in decoding ==> DecodedField(codec, v, k, decoding[k]).Some?
    then Some(Obj(v.fields + map k | k in decoding :: DecodedField(codec, v, k, decoding[k]).value))
    else None
  }

  method ApplyResultDecoding(codec: Codec, v: Value, decoding: map<string, ContentTypeSpec>) returns (r: Option<Value>)
    ensures r == Decoded(codec, v, decoding)
  {
    hide Bytes, DecodeBytes, ContentTypeOf, Supported;
    // Every content type is settled before any field is replaced.
    var resolved: map<string, string> := map[];
    var rest := decoding.Keys;
    while rest != {}
      invariant rest <= decoding.Keys && resolved.Keys == decoding.Keys - rest
      invariant forall k :: k in resolved ==>
                  ContentTypeOf(v, decoding[k]) == Some(resolved[k]) && Supported(resolved[k])
      decreases |rest|
    {
      var k :| k in rest;
      var ct := ContentTypeOf(v, decoding[k]);
      if ct.None? || !Supported(ct.value) {
        assert DecodedField(codec, v, k, decoding[k]).None?;
        return None;
      }
      resolved := resolved[k := ct.value];
      rest := rest - {k};
    }
    if !v.Obj? {
      return None;
    }
    var out := v.fields;
    rest := decoding.Keys;
    while rest != {}
      invariant rest <= decoding.Keys && out.Keys == v.fields.Keys
      invariant forall k :: k in out ==>
                  if k in decoding && k !in rest then DecodedField(codec, v, k, decoding[k]) == Some(out[k])
                      else out[k] == v.fields[k]
      invariant forall k :: k in decoding && k !in rest ==> k in out && DecodedField(codec, v, k, decoding[k]).Some?
      decreases |rest|
    {
      var k :| k in rest;
      assert k in resolved;
      if k !in out || !out[k].Arr? {
        assert DecodedField(codec, v, k, decoding[k]).None?;
        return None;
      }
      var bytes := Bytes(out[k].items);
      if bytes.None? {
        assert DecodedField(codec, v, k, decoding[k]).None?;
        return None;
      }
      var decoded := DecodeBytes(codec, bytes.value, resolved[k]);
      if decoded.None? {
        assert DecodedField(codec, v, k, decoding[k]).None?;
        return None;
      }
      out := out[k := decoded.value];
      rest := rest - {k};
    }
    assert out == v.fields + map k | k in decoding :: DecodedField(codec, v, k, decoding[k]).value;
    r := Some(Obj(out));
  }

  /** A record schema, as the system emits it. */
  predicate IsRecord(s: Schema) {
    s.properties.Properties? && s == ClosedObject(s.properties.of, s.required).(title := s.title)
  }

  /** Decoding rewrites the schema and the value together. */
  lemma DecodingSound(codec: Codec, v: Value, s: Schema, decoding: map<string, ContentTypeSpec>)
    requires IsRecord(s) && Conforms(v, s) && Decoded(codec, v, decoding).Some?
    ensures Conforms(Decoded(codec, v, decoding).value, DecodedSchema(s, decoding))
  {
    var w, t := Decoded(codec, v, decoding).value, DecodedSchema(s, decoding);
    assert ConformsHere(w, t) && ExactlyOne(w, t);
    forall k | k in w.fields
      ensures FieldConforms(k, w.fields[k], t)
    {
      if k in decoding {
        AnythingConforms(w.fields[k]);
        TextConforms(w.fields[k]);
      } else {
        assert FieldConforms(k, v.fields[k], s);
      }
    }
  }

  lemma AnythingConforms(v: Value)
    ensures Conforms(v, ANY)
  {
    assert ConformsHere(v, ANY) && ExactlyOne(v, ANY);
  }

  lemma TextConforms(v: Value)
    ensures Conforms(v, Typed(StringKind)) <==> v.Str?
  {
  }

  /**
   * Soundness of a whole reply body: decoding, then substitution, against the schema derived from the decoded schema.
   */
  lemma DecodedTemplateSound(codec: Codec, render: Value -> string, t: Template, v: Value, s: Schema,
                             decoding: map<string, ContentTypeSpec>)
    requires IsRecord(s) && OptionsOnly(s) && Conforms(v, s) && NoDefaults(t)
    requires Decoded(codec, v, decoding).Some?
    requires Derive(t, DecodedSchema(s, decoding)).Some?
              && Substitute(render, t, Decoded(codec, v, decoding).value).Some?
    ensures var w := Decoded(codec, v, decoding).value;
            var d := DecodedSchema(s, decoding);
            Conforms(Substitute(render, t, w).value, Derive(t, d).value) <==> AvoidsNulls(t, w, d)
  {
    DecodingSound(codec, v, s, decoding);
    var d := DecodedSchema(s, decoding);
    assert OptionsOnly(d) by {
      hide Conforms;
      forall k | k in d.properties.of
        ensures OptionsOnly(d.properties.of[k])
      {
      }
    }
    hide Conforms, OptionsOnly, Derive, Substitute, AvoidsNulls, Decoded, DecodedSchema;
    TemplateSound(render, t, Decoded(codec, v, decoding).value, d);
  }
}
