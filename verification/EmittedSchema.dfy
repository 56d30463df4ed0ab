/** The JSON Schema emitted for a type accepts the JSON emitted for its values. */
module EmittedSchema {
  import opened Json
  import opened Conversion
  import opened Templates
  import opened Wrappers

  function Between(lo: Option<int>, hi: Option<int>): Schema {
    Typed(NumberKind).(minimum := lo, maximum := hi)
  }

  function IntSchema(signed: bool, bits: nat): Schema {
    if signed then (if bits == 64 then Between(None, None)
                    else Between(Some(-(Power(bits) / 2)), Some(Power(bits) / 2 - 1)))
    else Between(Some(0), if bits == 64 then None else Some(Power(bits) - 1))
  }

  function OptionSchema(inner: Schema): Schema {
    ANY.(oneOf := OneOf([inner, Typed(NullKind)]))
  }

  function TagSchema(tag: string): Schema {
    ANY.(constant := Some(Str(tag)))
  }

  function ArmSchema(tag: string, payload: Option<Schema>): Schema {
    if payload.Some? then ClosedObject(map["type" := TagSchema(tag), "value" := payload.value], {"type", "value"})
    else ClosedObject(map["type" := TagSchema(tag)], {"type"})
  }

  function OneField(name: string, s: Schema): Schema {
    ClosedObject(map[name := s], {name})
  }

  function MaybeSchema(t: Option<Type>): Schema
    decreases t, 1
  {
    if t.Some? then SchemaOf(t.value) else Typed(NullKind)
  }

  function SchemaOf(t: Type): Schema
    decreases t, 0
  {
    match t
    case BoolT => Typed(BooleanKind)
    case StringT => Typed(StringKind)
    case CharT => Typed(StringKind).(minLength := 1, maxLength := Some(1))
    case IntT(signed, bits) => IntSchema(signed, bits)
    case FloatT(_) => Typed(NumberKind)
    case ListT(elem) => ListOf(SchemaOf(elem))
    case MapT(key, value) =>
      if key.StringT? then Typed(ObjectKind).(additional := Each(SchemaOf(value)))
      else ListOf(TupleOf([SchemaOf(key), SchemaOf(value)]))
    case TupleT(types) => TupleOf(seq(|types|, i requires 0 <= i < |types| => SchemaOf(types[i])))
    case RecordT(name, fields) =>
      ClosedObject(map n | n in NamesOf(fields) :: SchemaOf(fields[IndexOf(fields, n).value].1),
                   set i | 0 <= i < |fields| && !fields[i].1.OptionT? :: fields[i].0).(title := name)
    case OptionT(inner) => OptionSchema(SchemaOf(inner))
    case VariantT(cases) =>
      ANY.(oneOf := OneOf(seq(|cases|, i requires 0 <= i < |cases| =>
             ArmSchema(cases[i].0, if cases[i].1.Some? then Some(SchemaOf(cases[i].1.value)) else None))))
    case EnumT(names) => Typed(StringKind).(choices := Some(set n | n in names))
    case ResultT(ok, err) => ANY.(oneOf :=
                                  OneOf([OneField("ok", MaybeSchema(ok)), OneField("error", MaybeSchema(err))]))
    case FlagsT(names) => ListOf(Typed(StringKind).(choices := Some(set n | n in names))).(uniqueItems := true)
  }

  // ---- Which values are accepted --------------------------------------------------------------------------------

  /** Null is accepted by an option of a type that does not itself accept it: not by an option of an option. */
  predicate NullOk(t: Type) {
    t.OptionT? && !NullOk(t.inner)
  }

  /**
   * An object that a payload was merged into, taken for a value of the case its field "type" names: that case has no
   * payload and there is no other field, or there is just a field "value" that the case's payload type accepts.
   */
  predicate PassesFor(fields: map<string, Value>, cases: seq<(string, Option<Type>)>) {
    && "type" in fields && fields["type"].Str?
    && var i := IndexOf(cases, fields["type"].s);
    && i.Some?
    && match cases[i.value].1
       case None => fields.Keys == {"type"}
       case Some(ty) => fields.Keys == {"type", "value"} && Conforms(fields["value"], SchemaOf(ty))
  }

  /**
   * Numbers are finite, maps without string keys are not empty, a null stands for one option only, and an object that
   * a payload was merged into passes for a value of some case.
   */
  predicate Acceptable(v: Val, t: Type)
    requires HasType(v, t)
    decreases t
  {
    match t
    case FloatT(_) => v.f.Finite?
    case ListT(elem) => forall i :: 0 <= i < |v.items| ==> Acceptable(v.items[i], elem)
    case MapT(key, value) =>
      if v.DictV? then forall k :: k in v.dict ==> Acceptable(v.dict[k], value)
      else v.pairs != [] && forall i :: 0 <= i < |v.pairs| ==>
        Acceptable(v.pairs[i].0, key) && Acceptable(v.pairs[i].1, value)
    case TupleT(types) => forall i :: 0 <= i < |types| ==> Acceptable(v.items[i], types[i])
    case RecordT(_, fields) => forall i :: 0 <= i < |fields| ==> Acceptable(v.fields[i].1, fields[i].1)
    case OptionT(inner) =>
      if v.opt.None? || ToJson(v.opt.value) == Null then !NullOk(inner) else Acceptable(v.opt.value, inner)
    case VariantT(cases) =>
      v.payload.Some? ==>
        if ToJson(v.payload.value).Obj? then PassesFor(ToJson(v).fields, cases)
        else Acceptable(v.payload.value, cases[IndexOf(cases, v.tag).value].1.value)
    case ResultT(ok, err) => v.payload.Some? ==> Acceptable(v.payload.value, if v.isOk then ok.value else err.value)
    case _ => true
  }

  /** The emitted schema accepts the emitted JSON. */
  predicate Accepts(v: Val, t: Type) {
    Conforms(ToJson(v), SchemaOf(t))
  }

  // ---- Conformance of the shapes that occur ---------------------------------------------------------------------

  lemma ListConforms(vs: seq<Value>, s: Schema)
    ensures Conforms(Arr(vs), ListOf(s)) <==> forall i :: 0 <= i < |vs| ==> Conforms(vs[i], s)
  {
    var v, l := Arr(vs), ListOf(s);
    assert ConformsHere(v, l) && ExactlyOne(v, l);
    assert forall i :: 0 <= i < |vs| ==> (ItemConforms(i, vs[i], l) <==> Conforms(vs[i], s));
  }

  lemma DictConforms(vs: map<string, Value>, s: Schema)
    ensures Conforms(Obj(vs), Typed(ObjectKind).(additional := Each(s))) <==> forall k :: k in vs ==> Conforms(vs[k], s)
  {
    var v, d := Obj(vs), Typed(ObjectKind).(additional := Each(s));
    assert ConformsHere(v, d) && ExactlyOne(v, d);
    assert forall k :: k in vs ==> (FieldConforms(k, vs[k], d) <==> Conforms(vs[k], s));
  }

  lemma TagConforms(v: Value, tag: string)
    ensures Conforms(v, TagSchema(tag)) <==> v == Str(tag)
  {
    var s := TagSchema(tag);
    assert v.Obj? ==> forall k :: k in v.fields ==> FieldConforms(k, v.fields[k], s);
    assert v.Arr? ==> forall i :: 0 <= i < |v.items| ==> ItemConforms(i, v.items[i], s);
    assert ExactlyOne(v, s);
  }

  lemma ScalarConforms(v: Value, s: Schema)
    requires !v.Obj? && !v.Arr? && s.oneOf.NoOneOf?
    ensures Conforms(v, s) <==> ConformsHere(v, s)
  {
  }

  lemma KindRejectsNull(s: Schema)
    requires s.kind.Some? && s.kind != Some(NullKind)
    ensures !Conforms(Null, s)
  {
  }

  lemma ArmsRejectNull(s: Schema)
    requires s.oneOf.OneOf? && s == ANY.(oneOf := s.oneOf)
    requires forall i :: 0 <= i < |s.oneOf.arms| ==> s.oneOf.arms[i].kind == Some(ObjectKind)
    ensures !Conforms(Null, s)
  {
    hide Conforms, ExactlyOne;
    OnlyOneOf(Null, s);
    forall i | 0 <= i < |s.oneOf.arms|
      ensures !Conforms(Null, s.oneOf.arms[i])
    {
      KindRejectsNull(s.oneOf.arms[i]);
    }
    NoArm(Null, s);
  }

  /** Null against an emitted schema. */
  lemma {:induction false} NullAccepted(t: Type)
    ensures Conforms(Null, SchemaOf(t)) <==> NullOk(t)
    decreases t
  {
    hide Conforms, ExactlyOne;
    match t {
      case OptionT(inner) =>
        NullAccepted(inner);
        OptionAccepts(Null, SchemaOf(inner));
      case VariantT(_) => ArmsRejectNull(SchemaOf(t));
      case ResultT(_, _) => ArmsRejectNull(SchemaOf(t));
      case _ => KindRejectsNull(SchemaOf(t));
    }
  }

  lemma NoArm(v: Value, s: Schema)
    requires s.oneOf.OneOf? && forall i :: 0 <= i < |s.oneOf.arms| ==> !Conforms(v, s.oneOf.arms[i])
    ensures !ExactlyOne(v, s)
  {
    hide Conforms;
  }

  lemma OptionAccepts(v: Value, inner: Schema)
    ensures Conforms(v, OptionSchema(inner)) <==> if v == Null then !Conforms(Null, inner) else Conforms(v, inner)
  {
    hide Conforms, ExactlyOne;
    var s := OptionSchema(inner);
    OnlyOneOf(v, s);
    TwoArms(v, s);
    NullKindOnlyNull(v);
  }

  // ---- Values against their own schemas -------------------------------------------------------------------------

  /**
   * The emitted schema accepts the emitted JSON of a well-typed value exactly when the value is acceptable, for all
   * values without a variant payload that renders as an object with a field "value". Accepting means in particular
   * that in every `oneOf` exactly one arm matches.
   */
  lemma {:induction false} AcceptsExactly(v: Val, t: Type)
    requires WellFormed(t) && HasType(v, t)
    ensures Accepts(v, t) <==> Acceptable(v, t)
    decreases t, 1
  {
    match t {
      case ListT(_) => ListAccepts(v, t);
      case MapT(_, _) => if v.DictV? { DictAccepts(v, t); } else { PairsAccept(v, t); }
      case TupleT(_) => TupleAccepts(v, t);
      case RecordT(_, _) => RecordAccepts(v, t);
      case OptionT(inner) =>
        OptionAccepts(ToJson(v), SchemaOf(inner));
        NullAccepted(inner);
        if v.opt.Some? {
          AcceptsExactly(v.opt.value, inner);
        }
      case VariantT(_) => VariantAccepts(v, t);
      case ResultT(_, _) => ResultAccepts(v, t);
      case FlagsT(_) => FlagsAccept(v, t);
      case _ => ScalarAccepts(v, t);
    }
  }

  lemma ScalarAccepts(v: Val, t: Type)
    requires WellFormed(t) && HasType(v, t)
    requires t.BoolT? || t.StringT? || t.CharT? || t.IntT? || t.FloatT? || t.EnumT?
    ensures Accepts(v, t) <==> Acceptable(v, t)
  {
    ScalarConforms(ToJson(v), SchemaOf(t));
  }

  lemma FlagsAccept(v: Val, t: Type)
    requires t.FlagsT? && HasType(v, t)
    ensures Accepts(v, t)
  {
    var j, s := ToJson(v), SchemaOf(t);
    forall i | 0 <= i < |j.items|
      ensures ItemConforms(i, j.items[i], s)
    {
      assert v.names[i] in v.names;
      ScalarConforms(j.items[i], s.items.schema);
    }
    assert ConformsHere(j, s) && ExactlyOne(j, s);
  }

  lemma {:induction false} ListAccepts(v: Val, t: Type)
    requires t.ListT? && WellFormed(t) && HasType(v, t)
    ensures Accepts(v, t) <==> Acceptable(v, t)
    decreases t, 0
  {
    hide Conforms;
    ListConforms(ToJson(v).items, SchemaOf(t.elem));
    forall i | 0 <= i < |v.items|
      ensures Accepts(v.items[i], t.elem) <==> Acceptable(v.items[i], t.elem)
    {
      AcceptsExactly(v.items[i], t.elem);
    }
    assert forall i :: 0 <= i < |v.items| ==>
      (Conforms(ToJson(v).items[i], SchemaOf(t.elem)) <==> Accepts(v.items[i], t.elem));
  }

  lemma {:induction false} DictAccepts(v: Val, t: Type)
    requires t.MapT? && v.DictV? && WellFormed(t) && HasType(v, t)
    ensures Accepts(v, t) <==> Acceptable(v, t)
    decreases t, 0
  {
    hide Conforms;
    DictConforms(ToJson(v).fields, SchemaOf(t.value));
    forall k | k in v.dict
      ensures Accepts(v.dict[k], t.value) <==> Acceptable(v.dict[k], t.value)
    {
      AcceptsExactly(v.dict[k], t.value);
    }
    assert forall k :: k in v.dict ==>
      (Conforms(ToJson(v).fields[k], SchemaOf(t.value)) <==> Accepts(v.dict[k], t.value));
  }

  lemma {:induction false} PairsAccept(v: Val, t: Type)
    requires t.MapT? && v.PairsV? && WellFormed(t) && HasType(v, t)
    ensures Accepts(v, t) <==> Acceptable(v, t)
    decreases t, 0
  {
    var key, value := SchemaOf(t.key), SchemaOf(t.value);
    if v.pairs == [] {
      assert ToJson(v).Obj?;
      assert !Accepts(v, t);
    } else {
      hide Conforms;
      PairsRender(v, t);
      var j := ToJson(v);
      ListConforms(j.items, TupleOf([key, value]));
      forall i | 0 <= i < |v.pairs|
        ensures Conforms(j.items[i], TupleOf([key, value])) <==>
                  Acceptable(v.pairs[i].0, t.key) && Acceptable(v.pairs[i].1, t.value)
      {
        AcceptsExactly(v.pairs[i].0, t.key);
        AcceptsExactly(v.pairs[i].1, t.value);
        assert Pair(j.items[i]) == Some((ToJson(v.pairs[i].0), ToJson(v.pairs[i].1)));
        PairConforms(j.items[i], key, value);
      }
    }
  }

  lemma PairConforms(j: Value, key: Schema, value: Schema)
    requires Pair(j).Some?
    ensures Conforms(j, TupleOf([key, value])) <==> Conforms(Pair(j).value.0, key) && Conforms(Pair(j).value.1, value)
  {
    TupleConforms(j.items, [key, value]);
  }

  lemma {:induction false} TupleAccepts(v: Val, t: Type)
    requires t.TupleT? && WellFormed(t) && HasType(v, t)
    ensures Accepts(v, t) <==> Acceptable(v, t)
    decreases t, 0
  {
    hide Conforms;
    TupleConforms(ToJson(v).items, SchemaOf(t).prefix.of);
    forall i | 0 <= i < |v.items|
      ensures Accepts(v.items[i], t.types[i]) <==> Acceptable(v.items[i], t.types[i])
    {
      AcceptsExactly(v.items[i], t.types[i]);
    }
    assert forall i :: 0 <= i < |v.items| ==>
      (Conforms(ToJson(v).items[i], SchemaOf(t).prefix.of[i]) <==> Accepts(v.items[i], t.types[i]));
  }

  lemma {:induction false} RecordAccepts(v: Val, t: Type)
    requires t.RecordT? && WellFormed(t) && HasType(v, t)
    ensures Accepts(v, t) <==> Acceptable(v, t)
    decreases t, 0
  {
    forall i | 0 <= i < |v.fields|
      ensures Accepts(v.fields[i].1, t.fields[i].1) <==> Acceptable(v.fields[i].1, t.fields[i].1)
    {
      AcceptsExactly(v.fields[i].1, t.fields[i].1);
    }
    RecordAcceptsByFields(v, t);
  }

  /** A record's schema lists its fields under their own names. */
  lemma RecordSchemaFields(t: Type, i: nat)
    requires t.RecordT? && Distinct(NamesOf(t.fields)) && i < |t.fields|
    ensures t.fields[i].0 in SchemaOf(t).properties.of
              && SchemaOf(t).properties.of[t.fields[i].0] == SchemaOf(t.fields[i].1)
  {
    assert NamesOf(t.fields)[i] == t.fields[i].0;
    assert IndexOf(t.fields, t.fields[i].0) == Some(i);
  }

  lemma RecordSchemaShape(t: Type)
    requires t.RecordT?
    ensures var s := SchemaOf(t);
            && s.properties.Properties? && s.properties.of.Keys == (set n | n in NamesOf(t.fields))
                 && s.required <= s.properties.of.Keys
            && s == ClosedObject(s.properties.of, s.required).(title := s.title)
  {
    forall i | 0 <= i < |t.fields|
      ensures t.fields[i].0 in NamesOf(t.fields)
    {
      assert NamesOf(t.fields)[i] == t.fields[i].0;
    }
  }

  lemma RecordAcceptsByFields(v: Val, t: Type)
    requires t.RecordT? && Distinct(NamesOf(t.fields)) && HasType(v, t)
    ensures Accepts(v, t) <==> forall i :: 0 <= i < |v.fields| ==> Accepts(v.fields[i].1, t.fields[i].1)
  {
    hide Conforms, SchemaOf, ToJson;
    var j, s := ToJson(v), SchemaOf(t);
    NamesAlike(v, t);
    RecordKeys(v, t);
    RecordSchemaShape(t);
    ObjectAccepts(j, s.properties.of, s.required, s.title);
    forall i | 0 <= i < |v.fields|
      ensures v.fields[i].0 in j.fields
      ensures Conforms(j.fields[v.fields[i].0], s.properties.of[v.fields[i].0]) <==>
                Accepts(v.fields[i].1, t.fields[i].1)
    {
      RecordFields(v, t, i);
      RecordSchemaFields(t, i);
    }
    forall k | k in j.fields
      ensures exists i :: 0 <= i < |v.fields| && v.fields[i].0 == k
    {
      assert k in NamesOf(t.fields);
      var i :| 0 <= i < |t.fields| && NamesOf(t.fields)[i] == k;
      assert v.fields[i].0 == k;
    }
  }

  lemma RecordKeys(v: Val, t: Type)
    requires t.RecordT? && Distinct(NamesOf(t.fields)) && HasType(v, t)
    ensures ToJson(v).Obj? && ToJson(v).fields.Keys == set n | n in NamesOf(t.fields)
  {
    assert NamesOf(v.fields) == NamesOf(t.fields);
  }

  /** An arm accepts an object with its own tag, a payload where it has one, and nothing else. */
  lemma ArmAccepts(tag: string, payload: Option<Schema>, fields: map<string, Value>)
    requires "type" in fields
    ensures Conforms(Obj(fields), ArmSchema(tag, payload)) <==>
              && fields["type"] == Str(tag)
              && fields.Keys == (if payload.Some? then {"type", "value"} else {"type"})
              && (payload.Some? ==> Conforms(fields["value"], payload.value))
  {
    hide Conforms;
    var s := ArmSchema(tag, payload);
    TagConforms(fields["type"], tag);
    ObjectAccepts(Obj(fields), s.properties.of, s.required, None);
  }

  lemma {:induction false} VariantAccepts(v: Val, t: Type)
    requires t.VariantT? && WellFormed(t) && HasType(v, t)
    ensures Accepts(v, t) <==> Acceptable(v, t)
    decreases t, 0
  {
    var i := IndexOf(t.cases, v.tag).value;
    if v.payload.Some? && ToJson(v.payload.value).Obj? {
      MergedByArm(v, t);
    } else {
      if v.payload.Some? {
        AcceptsExactly(v.payload.value, t.cases[i].1.value);
      }
      VariantByArm(v, t, i);
    }
  }

  function CaseSchema(t: Type, k: nat): Option<Schema>
    requires t.VariantT? && k < |t.cases|
  {
    if t.cases[k].1.Some? then Some(SchemaOf(t.cases[k].1.value)) else None
  }

  lemma VariantByArm(v: Val, t: Type, i: nat)
    requires t.VariantT? && Distinct(NamesOf(t.cases)) && HasType(v, t) && IndexOf(t.cases, v.tag) == Some(i)
    requires v.payload.Some? ==> !ToJson(v.payload.value).Obj?
    ensures Accepts(v, t) <==> (v.payload.Some? ==> Accepts(v.payload.value, t.cases[i].1.value))
  {
    hide Conforms, ExactlyOne;
    var j, s := ToJson(v), SchemaOf(t);
    OnlyOneOf(j, s);
    forall k | 0 <= k < |t.cases|
      ensures Conforms(j, s.oneOf.arms[k]) <==>
                k == i && (v.payload.Some? ==> Accepts(v.payload.value, t.cases[i].1.value))
    {
      ArmAccepts(t.cases[k].0, CaseSchema(t, k), j.fields);
    }
    if v.payload.Some? ==> Accepts(v.payload.value, t.cases[i].1.value) {
      ArmAlone(j, s, i);
    } else {
      NoArm(j, s);
    }
  }

  /** A merged payload is accepted just where the object passes for a value of some case. */
  lemma MergedByArm(v: Val, t: Type)
    requires t.VariantT? && Distinct(NamesOf(t.cases)) && HasType(v, t) && v.payload.Some?
    requires ToJson(v.payload.value).Obj?
    ensures ToJson(v).Obj? && (Accepts(v, t) <==> PassesFor(ToJson(v).fields, t.cases))
  {
    hide Conforms, SchemaOf, PassesFor;
    assert ToJson(v).fields == map["type" := Str(v.tag)] + ToJson(v.payload.value).fields;
    TaggedAccepts(ToJson(v).fields, t);
  }

  /** The objects a variant's schema accepts. */
  lemma TaggedAccepts(fields: map<string, Value>, t: Type)
    requires t.VariantT? && Distinct(NamesOf(t.cases)) && "type" in fields
    ensures Conforms(Obj(fields), SchemaOf(t)) <==> PassesFor(fields, t.cases)
  {
    hide Conforms, ExactlyOne;
    var j, s := Obj(fields), SchemaOf(t);
    OnlyOneOf(j, s);
    forall k | 0 <= k < |t.cases|
      ensures Conforms(j, s.oneOf.arms[k]) <==> fields["type"] == Str(t.cases[k].0) && PassesFor(fields, t.cases)
    {
      CaseNames(t, t.cases[k].0);
      ArmAccepts(t.cases[k].0, CaseSchema(t, k), fields);
    }
    if PassesFor(fields, t.cases) {
      CaseNames(t, fields["type"].s);
      ArmAlone(j, s, IndexOf(t.cases, fields["type"].s).value);
    } else {
      NoArm(j, s);
    }
  }

  /** Each case has one place. */
  lemma CaseNames(t: Type, name: string)
    requires t.VariantT? && Distinct(NamesOf(t.cases))
    ensures forall k :: 0 <= k < |t.cases| && t.cases[k].0 == name ==> IndexOf(t.cases, name) == Some(k)
  {
    forall k | 0 <= k < |t.cases| && t.cases[k].0 == name
      ensures IndexOf(t.cases, name) == Some(k)
    {
      assert NamesOf(t.cases)[k] == name;
    }
  }

  lemma {:induction false} ResultAccepts(v: Val, t: Type)
    requires t.ResultT? && WellFormed(t) && HasType(v, t)
    ensures Accepts(v, t) <==> Acceptable(v, t)
    decreases t, 0
  {
    if v.payload.Some? {
      AcceptsExactly(v.payload.value, if v.isOk then t.ok.value else t.err.value);
    }
    ResultByArm(v, t);
  }

  lemma ResultByArm(v: Val, t: Type)
    requires t.ResultT? && HasType(v, t)
    ensures Accepts(v, t) <==> (v.payload.Some? ==>
                                Accepts(v.payload.value, if v.isOk then t.ok.value else t.err.value))
  {
    hide Conforms, ExactlyOne;
    var j, s := ToJson(v), SchemaOf(t);
    OnlyOneOf(j, s);
    TwoArms(j, s);
    NullKindOnlyNull(Null);
    var own, other := if v.isOk then "ok" else "error", if v.isOk then "error" else "ok";
    var ownArm, otherArm := MaybeSchema(if v.isOk then t.ok else t.err), MaybeSchema(if v.isOk then t.err else t.ok);
    assert j.fields.Keys == {own};
    ObjectAccepts(j, map[own := ownArm], {own}, None);
    ObjectAccepts(j, map[other := otherArm], {other}, None);
  }
}
