/** From a function's result to a reply: what response templates and result decoding promise of it. */
module Replies {
  import opened Json
  import opened Templates
  import opened Conversion
  import opened EmittedSchema
  import opened Wrappers

  /** Types without results and options of options. */
  predicate ResultFree(t: Type) {
    match t
    case ListT(elem) => ResultFree(elem)
    case MapT(key, value) => ResultFree(key) && ResultFree(value)
    case TupleT(types) => forall i :: 0 <= i < |types| ==> ResultFree(types[i])
    case RecordT(_, fields) => forall i :: 0 <= i < |fields| ==> ResultFree(fields[i].1)
    case OptionT(inner) => ResultFree(inner) && !NullOk(inner)
    case VariantT(cases) => forall i :: 0 <= i < |cases| && cases[i].1.Some? ==> ResultFree(cases[i].1.value)
    case ResultT(_, _) => false
    case _ => true
  }

  lemma {:induction false} EmittedOptionsOnly(t: Type)
    requires ResultFree(t)
    ensures OptionsOnly(SchemaOf(t))
    decreases t, 1
  {
    hide Conforms;
    match t {
      case ListT(elem) => EmittedOptionsOnly(elem);
      case MapT(key, value) => EmittedOptionsOnly(key); EmittedOptionsOnly(value);
      case TupleT(types) =>
        forall i | 0 <= i < |types| ensures OptionsOnly(SchemaOf(types[i])) {
          EmittedOptionsOnly(types[i]);
        }
      case RecordT(_, fields) =>
        forall i | 0 <= i < |fields| ensures OptionsOnly(SchemaOf(fields[i].1)) {
          EmittedOptionsOnly(fields[i].1);
        }
      case OptionT(inner) => EmittedOptionsOnly(inner); NullAccepted(inner);
      case VariantT(_) => EmittedVariant(t);
      case _ =>
    }
  }

  lemma {:induction false} EmittedVariant(t: Type)
    requires t.VariantT? && ResultFree(t)
    ensures OptionsOnly(SchemaOf(t))
    decreases t, 0
  {
    forall i | 0 <= i < |t.cases| ensures OptionsOnly(SchemaOf(t).oneOf.arms[i]) {
      if t.cases[i].1.Some? {
        EmittedOptionsOnly(t.cases[i].1.value);
      }
      ArmOptionsOnly(t.cases[i].0, if t.cases[i].1.Some? then Some(SchemaOf(t.cases[i].1.value)) else None);
    }
    NotUnwrapped(SchemaOf(t));
  }

  lemma ArmOptionsOnly(tag: string, payload: Option<Schema>)
    requires payload.Some? ==> OptionsOnly(payload.value)
    ensures OptionsOnly(ArmSchema(tag, payload))
  {
    assert OptionsOnly(TagSchema(tag));
  }

  /** The arms of a variant are not taken for those of an option or a result. */
  lemma NotUnwrapped(s: Schema)
    requires s.oneOf.OneOf?
    requires forall i :: 0 <= i < |s.oneOf.arms| ==>
               s.oneOf.arms[i].kind == Some(ObjectKind) && s.oneOf.arms[i].properties.Properties?
                 && "type" in s.oneOf.arms[i].properties.of
    ensures Unwrap(s) == s
  {
    if |s.oneOf.arms| == 2 {
      var a := s.oneOf.arms[0];
      assert "type" in a.properties.of.Keys && "type" in s.oneOf.arms[1].properties.of.Keys;
    }
  }

  /**
   * A function's reply: the JSON of a value it returns, put through a response template, conforms to the schema
   * derived from its result type, if and only if no bare reference picks up an absent option.
   */
  lemma ReplySound(render: Value -> string, t: Template, v: Val, ty: Type)
    requires WellFormed(ty) && ResultFree(ty) && HasType(v, ty) && Acceptable(v, ty)
              && NoDefaults(t)
    requires Derive(t, SchemaOf(ty)).Some? && Substitute(render, t, ToJson(v)).Some?
    ensures Conforms(Substitute(render, t, ToJson(v)).value, Derive(t, SchemaOf(ty)).value) <==>
              AvoidsNulls(t, ToJson(v), SchemaOf(ty))
  {
    hide Conforms, OptionsOnly, SchemaOf, ToJson, Substitute, Derive, AvoidsNulls;
    AcceptsExactly(v, ty);
    EmittedOptionsOnly(ty);
    TemplateSound(render, t, ToJson(v), SchemaOf(ty));
  }

  // ---- Decoding a result that carries a record ------------------------------------------------------------------

  /** The type of the value a reply is made of: an option's or a result's own value. */
  function Carried(ty: Type): Type {
    match ty
    case OptionT(inner) => inner
    case ResultT(Some(ok), _) => ok
    case _ => ty
  }

  const BYTES := ListOf(IntSchema(false, 8))

  /** Only lists of bytes, or options of them, are decoded. */
  predicate DecodesBytes(s: Schema, decoding: map<string, ContentTypeSpec>) {
    forall k :: k in decoding ==>
        s.properties.Properties? && k in s.properties.of && Unwrap(s.properties.of[k]) == BYTES
  }

  /** Every reference names something. */
  predicate Rooted(t: Template) {
    match t
    case PathOnly(ref) => ref.path != []
    case Array(items) => forall i :: 0 <= i < |items| ==> Rooted(items[i])
    case Object(fields) => forall k :: k in fields ==> Rooted(fields[k])
    case _ => true
  }

  /** A number within the bounds of a byte. */
  predicate ByteLike(v: Value) {
    v.Num? && 0.0 <= Quantity(v.n) <= 255.0
  }

  predicate Decodes(path: seq<PathSegment>, decoding: map<string, ContentTypeSpec>) {
    path != [] && path[0].Key? && path[0].key in decoding
  }

  /** Whatever a bare reference reaches in a decoded field still looks like bytes, or like one. */
  predicate SparesDecoded(t: Template, v: Value, decoding: map<string, ContentTypeSpec>) {
    match t
    case PathOnly(ref) =>
      Decodes(ref.path, decoding) ==>
        (match Lookup(v, ref.path)
         case None => false
         case Some(found) =>
           if |ref.path| == 1 then found.Arr? && forall i :: 0 <= i < |found.items| ==> ByteLike(found.items[i])
           else ByteLike(found))
    case Array(items) => forall i :: 0 <= i < |items| ==> SparesDecoded(items[i], v, decoding)
    case Object(fields) => forall k :: k in fields ==> SparesDecoded(fields[k], v, decoding)
    case _ => true
  }

  lemma ByteConforms(v: Value)
    ensures Conforms(v, IntSchema(false, 8)) <==> ByteLike(v)
  {
    var s := IntSchema(false, 8);
    assert ExactlyOne(v, s);
  }

  lemma BytesConform(v: Value)
    ensures Conforms(v, BYTES) <==> v.Arr? && forall i :: 0 <= i < |v.items| ==> ByteLike(v.items[i])
  {
    if v.Arr? {
      ListConforms(v.items, IntSchema(false, 8));
      forall i | 0 <= i < |v.items|
        ensures Conforms(v.items[i], IntSchema(false, 8)) <==> ByteLike(v.items[i])
      {
        ByteConforms(v.items[i]);
      }
    }
  }

  /** A reference into a decoded field, against the schema the field had before decoding. */
  lemma DecodedReference(w: Value, r: Schema, path: seq<PathSegment>, decoding: map<string, ContentTypeSpec>)
    requires IsRecord(r) && DecodesBytes(r, decoding) && Decodes(path, decoding)
    requires Resolved(r, path).Some? && Lookup(w, path).Some?
    ensures var found := Lookup(w, path).value;
            Conforms(found, Resolved(r, path).value) <==>
              if |path| == 1 then found.Arr? && forall i :: 0 <= i < |found.items| ==>
                  ByteLike(found.items[i]) else ByteLike(found)
  {
    hide Conforms;
    var found := Lookup(w, path).value;
    var field := r.properties.of[path[0].key];
    assert StepSchema(Unwrap(r), path[0]) == Some(field);
    if |path| == 1 {
      assert path[1..] == [];
      assert Reach(Unwrap(r), path) == Some(field);
      BytesConform(found);
    } else {
      var rest, byte := path[1..], IntSchema(false, 8);
      assert Reach(field, rest).Some?;
      assert rest[0].Index? && StepSchema(BYTES, rest[0]) == Some(byte) && Unwrap(byte) == byte;
      assert Reach(field, rest) == Reach(byte, rest[1..]);
      assert rest[1..] == [] && |path| == 2;
      ByteConforms(found);
    }
  }

  /** Decoding leaves the other fields, and their schemas, as they were. */
  lemma OtherReference(codec: Codec, v: Value, r: Schema, path: seq<PathSegment>,
                       decoding: map<string, ContentTypeSpec>)
    requires IsRecord(r) && Decoded(codec, v, decoding).Some? && path != [] && !Decodes(path, decoding)
    ensures Lookup(Decoded(codec, v, decoding).value, path) == Lookup(v, path)
    ensures Resolved(DecodedSchema(r, decoding), path) == Resolved(r, path)
    ensures NullAtOption(path, v, r) <==>
              NullAtOption(path, Decoded(codec, v, decoding).value, DecodedSchema(r, decoding))
  {
    var d := DecodedSchema(r, decoding);
    assert Unwrap(d) == d && Unwrap(r) == r;
    assert StepSchema(d, path[0]) == StepSchema(r, path[0]);
    hide IsOption;
    assert Reach(d, path) == Reach(r, path);
  }

  /** A decoded field's schema is never that of an option. */
  lemma DecodedNotOption(w: Value, r: Schema, path: seq<PathSegment>, decoding: map<string, ContentTypeSpec>)
    requires IsRecord(r) && Decodes(path, decoding)
    ensures !NullAtOption(path, w, DecodedSchema(r, decoding))
  {
    var d := DecodedSchema(r, decoding);
    var field := SchemaForEncoded(decoding[path[0].key]);
    assert StepSchema(Unwrap(d), path[0]) == Some(field) && Unwrap(field) == field;
    if path[1..] == [] {
      assert Reach(d, path) == Some(field);
    } else {
      assert StepSchema(field, path[1..][0]).None?;
      assert Reach(d, path).None?;
    }
  }

  /**
   * Where the result type wraps a record in an option or a result, the schema side does not decode: the template's
   * value conforms to the schema derived from the undecoded record exactly when, besides avoiding nulls, it takes
   * nothing from a decoded field but what still looks like bytes.
   */
  lemma {:induction false} UndecodedSchema(codec: Codec, render: Value -> string, t: Template, v: Value, r: Schema,
                                           decoding: map<string, ContentTypeSpec>)
    requires IsRecord(r) && OptionsOnly(r) && Conforms(v, r) && DecodesBytes(r, decoding) && NoDefaults(t) && Rooted(t)
    requires Decoded(codec, v, decoding).Some?
    requires Derive(t, r).Some? && Substitute(render, t, Decoded(codec, v, decoding).value).Some?
    ensures var w := Decoded(codec, v, decoding).value;
            Conforms(Substitute(render, t, w).value, Derive(t, r).value) <==>
              AvoidsNulls(t, w, DecodedSchema(r, decoding)) && SparesDecoded(t, w, decoding)
    decreases t, 1
  {
    hide OptionsOnly, Conforms, Resolved, NullAtOption, Lookup, SubstituteText, RenderScalar, Decoded, DecodedSchema,
      IsRecord;
    var w := Decoded(codec, v, decoding).value;
    match t {
      case PathOnly(ref) =>
        if Decodes(ref.path, decoding) {
          DecodedReference(w, r, ref.path, decoding);
          DecodedNotOption(w, r, ref.path, decoding);
        } else {
          OtherReference(codec, v, r, ref.path, decoding);
          PathSound(v, r, ref.path);
        }
      case Array(_) => UndecodedArray(codec, render, t, v, r, decoding);
      case Object(_) => UndecodedObject(codec, render, t, v, r, decoding);
      case Text(_) => TextConforms(Substitute(render, t, w).value);
      case BoolLiteral(b) => LiteralConforms(Bool(b), BooleanKind);
      case NumLiteral(n) => LiteralConforms(Num(n), NumberKind);
      case NullLiteral => LiteralConforms(Null, NullKind);
    }
  }

  lemma LiteralConforms(v: Value, kind: Kind)
    requires KindOf(v) == kind && !v.Obj? && !v.Arr?
    ensures Conforms(v, Typed(kind))
  {
  }

  lemma {:induction false} UndecodedArray(codec: Codec, render: Value -> string, t: Template, v: Value, r: Schema,
                                          decoding: map<string, ContentTypeSpec>)
    requires t.Array? && IsRecord(r) && OptionsOnly(r) && Conforms(v, r) && DecodesBytes(r, decoding)
              && NoDefaults(t) && Rooted(t)
    requires Decoded(codec, v, decoding).Some?
    requires Derive(t, r).Some? && Substitute(render, t, Decoded(codec, v, decoding).value).Some?
    ensures var w := Decoded(codec, v, decoding).value;
            Conforms(Substitute(render, t, w).value, Derive(t, r).value) <==>
              AvoidsNulls(t, w, DecodedSchema(r, decoding)) && SparesDecoded(t, w, decoding)
    decreases t, 0
  {
    hide OptionsOnly, Conforms, Resolve, Resolved, NullAtOption, SubstituteText, Decoded, DecodedSchema, IsRecord,
      DecodesBytes;
    var w := Decoded(codec, v, decoding).value;
    var vs := Substitute(render, t, w).value.items;
    var ss := Derive(t, r).value.prefix.of;
    TupleConforms(vs, ss);
    forall i | 0 <= i < |vs|
      ensures Conforms(vs[i], ss[i]) <==>
                AvoidsNulls(t.items[i], w, DecodedSchema(r, decoding)) && SparesDecoded(t.items[i], w, decoding)
    {
      UndecodedSchema(codec, render, t.items[i], v, r, decoding);
    }
  }

  lemma {:induction false} UndecodedObject(codec: Codec, render: Value -> string, t: Template, v: Value, r: Schema,
                                           decoding: map<string, ContentTypeSpec>)
    requires t.Object? && IsRecord(r) && OptionsOnly(r) && Conforms(v, r) && DecodesBytes(r, decoding)
              && NoDefaults(t) && Rooted(t)
    requires Decoded(codec, v, decoding).Some?
    requires Derive(t, r).Some? && Substitute(render, t, Decoded(codec, v, decoding).value).Some?
    ensures var w := Decoded(codec, v, decoding).value;
            Conforms(Substitute(render, t, w).value, Derive(t, r).value) <==>
              AvoidsNulls(t, w, DecodedSchema(r, decoding)) && SparesDecoded(t, w, decoding)
    decreases t, 0
  {
    hide OptionsOnly, Conforms, Resolve, Resolved, NullAtOption, SubstituteText, Decoded, DecodedSchema, IsRecord,
      DecodesBytes;
    var w := Decoded(codec, v, decoding).value;
    var vs := Substitute(render, t, w).value.fields;
    var ss := Derive(t, r).value.properties.of;
    ObjectConforms(vs, ss);
    assert Derive(t, r).value == ClosedObject(ss, ss.Keys) && vs.Keys == t.fields.Keys;
    forall k | k in t.fields
      ensures Conforms(vs[k], ss[k]) <==>
                AvoidsNulls(t.fields[k], w, DecodedSchema(r, decoding)) && SparesDecoded(t.fields[k], w, decoding)
    {
      UndecodedSchema(codec, render, t.fields[k], v, r, decoding);
    }
  }

  /** A template sees a schema unwrapped. */
  lemma {:induction false} DeriveUnwrapped(t: Template, s: Schema)
    requires Unwrap(Unwrap(s)) == Unwrap(s)
    ensures Derive(t, s) == Derive(t, Unwrap(s))
    decreases t
  {
    match t {
      case Array(items) =>
        forall i | 0 <= i < |items| ensures Derive(items[i], s) == Derive(items[i], Unwrap(s)) {
          DeriveUnwrapped(items[i], s);
        }
        assert forall i :: 0 <= i < |items| ==> (Derive(items[i], s).Some? <==> Derive(items[i], Unwrap(s)).Some?);
        assert Derive(t, s).Some? ==> Derive(t, s).value.prefix.of == Derive(t, Unwrap(s)).value.prefix.of;
      case Object(fields) =>
        forall k | k in fields ensures Derive(fields[k], s) == Derive(fields[k], Unwrap(s)) {
          DeriveUnwrapped(fields[k], s);
        }
        assert forall k :: k in fields ==> (Derive(fields[k], s).Some? <==> Derive(fields[k], Unwrap(s)).Some?);
        assert Derive(t, s).Some? ==> Derive(t, s).value.properties.of == Derive(t, Unwrap(s)).value.properties.of;
      case _ =>
    }
  }

  /** The emitted schema of a type that carries a record. */
  lemma CarriedSchema(ty: Type, decoding: map<string, ContentTypeSpec>)
    requires Carried(ty).RecordT?
    ensures var s, r := SchemaOf(ty), SchemaOf(Carried(ty));
            && IsRecord(r) && Unwrap(s) == r && Unwrap(r) == r
            && (ty.RecordT? || DecodedSchema(s, decoding) == s)
  {
    RecordSchemaShape(Carried(ty));
  }

  /**
   * A decoded reply, for a function that returns a record or an option or result of one: put through a response
   * template, it conforms to the derived schema exactly when no bare reference picks up an absent option and, unless
   * the record is returned bare, none takes from a decoded field anything that does not still look like bytes.
   */
  lemma DecodedReply(codec: Codec, render: Value -> string, t: Template, v: Val, ty: Type,
                     decoding: map<string, ContentTypeSpec>)
    requires Carried(ty).RecordT? && WellFormed(Carried(ty)) && ResultFree(Carried(ty))
              && DecodesBytes(SchemaOf(Carried(ty)), decoding)
    requires HasType(v, Carried(ty)) && Acceptable(v, Carried(ty)) && NoDefaults(t) && Rooted(t)
    requires Decoded(codec, ToJson(v), decoding).Some? && Derive(t, DecodedSchema(SchemaOf(ty), decoding)).Some?
    requires Substitute(render, t, Decoded(codec, ToJson(v), decoding).value).Some?
    ensures var w := Decoded(codec, ToJson(v), decoding).value;
            Conforms(Substitute(render, t, w).value, Derive(t, DecodedSchema(SchemaOf(ty), decoding)).value) <==>
              && AvoidsNulls(t, w, DecodedSchema(SchemaOf(Carried(ty)), decoding))
              && (ty.RecordT? || SparesDecoded(t, w, decoding))
  {
    hide Conforms, OptionsOnly, SchemaOf, ToJson, Substitute, Derive, AvoidsNulls, Decoded, DecodedSchema,
      SparesDecoded, IsRecord;
    var r := SchemaOf(Carried(ty));
    AcceptsExactly(v, Carried(ty));
    EmittedOptionsOnly(Carried(ty));
    CarriedSchema(ty, decoding);
    if ty.RecordT? {
      DecodedTemplateSound(codec, render, t, ToJson(v), r, decoding);
    } else {
      DeriveUnwrapped(t, SchemaOf(ty));
      UndecodedSchema(codec, render, t, ToJson(v), r, decoding);
    }
  }

  /** Without a response template the schema is unwrapped before it is decoded, and the decoded reply conforms to it. */
  lemma PlainDecodedReply(codec: Codec, v: Val, ty: Type, decoding: map<string, ContentTypeSpec>)
    requires Carried(ty).RecordT? && WellFormed(Carried(ty)) && HasType(v, Carried(ty))
              && Acceptable(v, Carried(ty))
    requires Decoded(codec, ToJson(v), decoding).Some?
    ensures Conforms(Decoded(codec, ToJson(v), decoding).value, DecodedSchema(Unwrap(SchemaOf(ty)), decoding))
  {
    hide Conforms, SchemaOf, ToJson, Decoded, DecodedSchema, IsRecord;
    AcceptsExactly(v, Carried(ty));
    CarriedSchema(ty, decoding);
    DecodingSound(codec, ToJson(v), SchemaOf(Carried(ty)), decoding);
  }

  /** The smallest failure: a field of text, returned in a result, decoded and referred to on its own. */
  lemma DecodingMissedInResult(codec: Codec, render: Value -> string, err: Option<Type>, text: string)
    requires codec.utf8([0]) == Some(text)
    ensures var bytes := ListT(IntT(false, 8));
            var ty := ResultT(Some(RecordT(None, [("b", bytes)])), err);
            var v := Obj(map["b" := Arr([Num(Int(0))])]);
            var decoding := map["b" := Fixed("text/plain")];
            var t := PathOnly(Ref([Key("b")], None));
            && Decoded(codec, v, decoding) == Some(Obj(map["b" := Str(text)]))
            && Substitute(render, t, Obj(map["b" := Str(text)])) == Some(Str(text))
            && Derive(t, DecodedSchema(SchemaOf(ty), decoding)) == Some(BYTES)
            && !Conforms(Str(text), BYTES)
  {
    var bytes := ListT(IntT(false, 8));
    var record := RecordT(None, [("b", bytes)]);
    var ty := ResultT(Some(record), err);
    var v := Obj(map["b" := Arr([Num(Int(0))])]);
    var decoding := map["b" := Fixed("text/plain")];
    var t := PathOnly(Ref([Key("b")], None));
    DecodesZero(codec, text);
    UndecodedField(ty, record, "b", decoding);
    hide SchemaOf, Decoded, DecodedSchema, Derive;
    BytesConform(Str(text));
    assert [Key("b")][1..] == [];
    assert Lookup(Obj(map["b" := Str(text)]), [Key("b")]) == Some(Str(text));
  }

  /** Beneath an option or a result a reference to a decoded field still derives its bytes. */
  lemma UndecodedField(ty: Type, record: Type, name: string, decoding: map<string, ContentTypeSpec>)
    requires Carried(ty) == record && record == RecordT(None, [(name, ListT(IntT(false, 8)))]) && !ty.RecordT?
    ensures Derive(PathOnly(Ref([Key(name)], None)), DecodedSchema(SchemaOf(ty), decoding)) == Some(BYTES)
  {
    var r := SchemaOf(record);
    CarriedSchema(ty, decoding);
    DeriveUnwrapped(PathOnly(Ref([Key(name)], None)), SchemaOf(ty));
    RecordSchemaFields(record, 0);
    assert [Key(name)][1..] == [];
    assert StepSchema(r, Key(name)) == Some(BYTES);
    assert Reach(Unwrap(r), [Key(name)]) == Some(BYTES);
  }

  lemma DecodesZero(codec: Codec, text: string)
    requires codec.utf8([0]) == Some(text)
    ensures Decoded(codec, Obj(map["b" := Arr([Num(Int(0))])]), map["b" := Fixed("text/plain")]) ==
              Some(Obj(map["b" := Str(text)]))
  {
    var v, items := Obj(map["b" := Arr([Num(Int(0))])]), [Num(Int(0))];
    assert IsByte(items[0]);
    assert Bytes(items).value == [0];
    assert DecodedField(codec, v, "b", Fixed("text/plain")) == Some(Str(text));
    assert Decoded(codec, v, map["b" := Fixed("text/plain")]).value.fields == map["b" := Str(text)];
  }
}
