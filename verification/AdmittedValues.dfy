/** What the emitted schema admits, the converter reads: a value that passes the advertised schema is never misread. */
module AdmittedValues {
  import opened Json
  import opened Conversion
  import opened Templates
  import opened EmittedSchema
  import opened Wrappers

  /** The component value a JSON value stands for; an optional field left out stands for none. */
  predicate Says(j: Value, v: Val)
    decreases v
  {
    match v
    case BoolV(b) => j == Bool(b)
    case StringV(s) => j == Str(s)
    case CharV(c) => j == Str([c])
    case IntV(_, _, n) => j == Num(Int(n))
    case FloatV(_, f) => j.Num? && f == Finite(Quantity(j.n))
    case ListV(items) => j.Arr? && |j.items| == |items| && forall i :: 0 <= i < |items| ==> Says(j.items[i], items[i])
    case DictV(dict) => j.Obj? && j.fields.Keys == dict.Keys && forall k :: k in dict ==> Says(j.fields[k], dict[k])
    case PairsV(pairs) =>
      && j.Arr? && |j.items| == |pairs|
      && forall i :: 0 <= i < |pairs| ==>
           Pair(j.items[i]).Some? && Says(Pair(j.items[i]).value.0, pairs[i].0)
             && Says(Pair(j.items[i]).value.1, pairs[i].1)
    case TupleV(items) => j.Arr? && |j.items| == |items| && forall i :: 0 <= i < |items| ==> Says(j.items[i], items[i])
    case RecordV(fields) =>
      && j.Obj? && (forall k :: k in j.fields ==> k in NamesOf(fields))
      && forall i :: 0 <= i < |fields| ==>
           if fields[i].0 in j.fields then Says(j.fields[fields[i].0], fields[i].1) else fields[i].1 == OptionV(None)
    case OptionV(opt) => if opt.Some? then j != Null && Says(j, opt.value) else j == Null
    case VariantV(tag, payload) =>
      && j.Obj? && j.fields.Keys == (if payload.Some? then {"type", "value"} else {"type"})
      && j.fields["type"] == Str(tag) && (payload.Some? ==> Says(j.fields["value"], payload.value))
    case EnumV(tag) => j == Str(tag)
    case ResultV(isOk, payload) =>
      && j.Obj? && j.fields.Keys == {Arm(isOk)}
      && if payload.Some? then Says(j.fields[Arm(isOk)], payload.value) else j.fields[Arm(isOk)] == Null
    case FlagsV(names) => j.Arr? && |j.items| == |names| && forall i :: 0 <= i < |names| ==> j.items[i] == Str(names[i])
  }

  function Arm(isOk: bool): string {
    if isOk then "ok" else "error"
  }

  /** Where the type has an integer, the number is written as a 64-bit one. */
  predicate Whole(j: Value, t: Type)
    decreases t
  {
    match t
    case IntT(signed, _) => j.Num? && j.n.Int? && InRange(signed, 64, j.n.i)
    case ListT(elem) => j.Arr? && forall i :: 0 <= i < |j.items| ==> Whole(j.items[i], elem)
    case MapT(key, value) =>
      if key.StringT? then j.Obj? && forall k :: k in j.fields ==> Whole(j.fields[k], value)
      else j.Arr? && forall i :: 0 <= i < |j.items| && Pair(j.items[i]).Some? ==>
             Whole(Pair(j.items[i]).value.0, key) && Whole(Pair(j.items[i]).value.1, value)
    case TupleT(types) => j.Arr? && forall i :: 0 <= i < |types| && i < |j.items| ==> Whole(j.items[i], types[i])
    case RecordT(_, fields) => j.Obj? && forall i :: 0 <= i < |fields| && fields[i].0 in j.fields ==>
        Whole(j.fields[fields[i].0], fields[i].1)
    case OptionT(inner) => j == Null || Whole(j, inner)
    case VariantT(cases) =>
      j.Obj? && forall i :: 0 <= i < |cases| && cases[i].1.Some? && "type" in j.fields
                            && j.fields["type"] == Str(cases[i].0) && "value" in j.fields ==>
                  Whole(j.fields["value"], cases[i].1.value)
    case ResultT(ok, err) =>
      && j.Obj? && ("ok" in j.fields && ok.Some? ==> Whole(j.fields["ok"], ok.value))
      && ("error" in j.fields && err.Some? ==> Whole(j.fields["error"], err.value))
    case _ => true
  }

  /** The converter reads a value, of the type, as what it says. */
  predicate ReadRight(j: Value, t: Type) {
    FromJson(j, t).Some? ==> HasType(FromJson(j, t).value, t) && Says(j, FromJson(j, t).value)
  }

  predicate Admits(j: Value, t: Type) {
    (FromJson(j, t).Some? <==> Whole(j, t)) && ReadRight(j, t)
  }

  /**
   * Every value that conforms to a type's schema is read as the value of that type it stands for, if and only if its
   * integers are written as 64-bit integers.
   */
  lemma {:induction false} Admitted(j: Value, t: Type)
    requires WellFormed(t) && Conforms(j, SchemaOf(t))
    ensures Admits(j, t)
    decreases t, 1
  {
    hide Conforms, ExactlyOne, Admits, SchemaOf;
    match t {
      case ListT(_) => AdmittedList(j, t);
      case MapT(key, _) => if key.StringT? { AdmittedDict(j, t); } else { AdmittedPairs(j, t); }
      case TupleT(_) => AdmittedTuple(j, t);
      case RecordT(_, _) => AdmittedRecord(j, t);
      case OptionT(_) => AdmittedOption(j, t);
      case VariantT(_) => AdmittedVariant(j, t);
      case ResultT(_, _) => AdmittedResult(j, t);
      case FlagsT(_) => AdmittedFlags(j, t);
      case _ => AdmittedScalar(j, t);
    }
  }

  lemma AdmittedScalar(j: Value, t: Type)
    requires t.BoolT? || t.StringT? || t.CharT? || t.IntT? || t.FloatT? || t.EnumT?
    requires WellFormed(t) && Conforms(j, SchemaOf(t))
    ensures Admits(j, t)
  {
    assert ConformsHere(j, SchemaOf(t));
    hide Conforms;
    if t.IntT? {
      AdmittedNumber(j, t.signed, t.bits);
    }
  }

  /** A number within the bounds of the schema is not truncated. */
  lemma AdmittedNumber(j: Value, signed: bool, bits: nat)
    requires bits == 8 || bits == 16 || bits == 32 || bits == 64
    requires ConformsHere(j, IntSchema(signed, bits))
    ensures Admits(j, IntT(signed, bits))
  {
    hide HasType, Says, Truncate;
    assert j.Num?;
    if j.n.Int? && InRange(signed, 64, j.n.i) {
      WithinBounds(j.n.i, signed, bits);
      IntReturns(signed, bits, j.n.i);
      ReadInt(j, signed, bits);
    }
  }

  lemma WithinBounds(n: int, signed: bool, bits: nat)
    requires bits == 8 || bits == 16 || bits == 32 || bits == 64
    requires ConformsHere(Num(Int(n)), IntSchema(signed, bits)) && InRange(signed, 64, n)
    ensures InRange(signed, bits, n)
  {
    assert Quantity(Int(n)) == n as real;
  }

  lemma ReadInt(j: Value, signed: bool, bits: nat)
    requires j.Num? && j.n.Int? && InRange(signed, bits, j.n.i) && InRange(signed, 64, j.n.i)
    requires FromNumber(j.n, signed, bits) == Some(IntV(signed, bits, j.n.i))
    ensures Admits(j, IntT(signed, bits))
  {
    hide FromNumber, InRange;
  }

  lemma {:induction false} AdmittedOption(j: Value, t: Type)
    requires t.OptionT? && WellFormed(t) && Conforms(j, SchemaOf(t))
    ensures Admits(j, t)
    decreases t, 0
  {
    hide Conforms, ExactlyOne, Admits;
    assert SchemaOf(t) == OptionSchema(SchemaOf(t.inner));
    OptionAccepts(j, SchemaOf(t.inner));
    if j != Null {
      Admitted(j, t.inner);
    }
    ReadOption(j, t);
  }

  lemma ReadOption(j: Value, t: Type)
    requires t.OptionT? && (j == Null || Admits(j, t.inner))
    ensures Admits(j, t)
  {
  }

  lemma {:induction false} AdmittedList(j: Value, t: Type)
    requires t.ListT? && WellFormed(t) && Conforms(j, SchemaOf(t))
    ensures Admits(j, t)
    decreases t, 0
  {
    ListConforms(j.items, SchemaOf(t.elem));
    hide Conforms;
    forall i | 0 <= i < |j.items|
      ensures Admits(j.items[i], t.elem)
    {
      Admitted(j.items[i], t.elem);
    }
  }

  lemma {:induction false} AdmittedDict(j: Value, t: Type)
    requires t.MapT? && t.key.StringT? && WellFormed(t) && Conforms(j, SchemaOf(t))
    ensures Admits(j, t)
    decreases t, 0
  {
    assert ConformsHere(j, SchemaOf(t));
    DictConforms(j.fields, SchemaOf(t.value));
    hide Conforms;
    forall k | k in j.fields
      ensures Admits(j.fields[k], t.value)
    {
      Admitted(j.fields[k], t.value);
    }
    ReadDict(j, t);
  }

  lemma ReadDict(j: Value, t: Type)
    requires t.MapT? && t.key.StringT? && j.Obj? && forall k :: k in j.fields ==> Admits(j.fields[k], t.value)
    ensures Admits(j, t)
  {
  }

  lemma {:induction false} AdmittedPairs(j: Value, t: Type)
    requires t.MapT? && !t.key.StringT? && WellFormed(t) && Conforms(j, SchemaOf(t))
    ensures Admits(j, t)
    decreases t, 0
  {
    hide Conforms, Admits;
    PairsShape(j, SchemaOf(t.key), SchemaOf(t.value));
    forall i | 0 <= i < |j.items|
      ensures Admits(Pair(j.items[i]).value.0, t.key) && Admits(Pair(j.items[i]).value.1, t.value)
    {
      Admitted(Pair(j.items[i]).value.0, t.key);
      Admitted(Pair(j.items[i]).value.1, t.value);
    }
    ReadPairs(j, t);
  }

  lemma PairsShape(j: Value, key: Schema, value: Schema)
    requires Conforms(j, ListOf(TupleOf([key, value])))
    ensures j.Arr?
    ensures forall i :: 0 <= i < |j.items| ==>
              Pair(j.items[i]).Some? && Conforms(Pair(j.items[i]).value.0, key)
                && Conforms(Pair(j.items[i]).value.1, value)
  {
    assert ConformsHere(j, ListOf(TupleOf([key, value])));
    ListConforms(j.items, TupleOf([key, value]));
    forall i | 0 <= i < |j.items|
      ensures Pair(j.items[i]).Some? && Conforms(Pair(j.items[i]).value.0, key)
                && Conforms(Pair(j.items[i]).value.1, value)
    {
      assert ConformsHere(j.items[i], TupleOf([key, value]));
      hide Conforms;
      PairConforms(j.items[i], key, value);
    }
  }

  lemma ReadPairs(j: Value, t: Type)
    requires t.MapT? && !t.key.StringT? && j.Arr?
    requires forall i :: 0 <= i < |j.items| ==>
               Pair(j.items[i]).Some? && Admits(Pair(j.items[i]).value.0, t.key)
                 && Admits(Pair(j.items[i]).value.1, t.value)
    ensures Admits(j, t)
  {
  }

  lemma {:induction false} AdmittedTuple(j: Value, t: Type)
    requires t.TupleT? && WellFormed(t) && Conforms(j, SchemaOf(t))
    ensures Admits(j, t)
    decreases t, 0
  {
    assert ConformsHere(j, SchemaOf(t));
    TupleConforms(j.items, SchemaOf(t).prefix.of);
    hide Conforms;
    forall i | 0 <= i < |j.items|
      ensures Admits(j.items[i], t.types[i])
    {
      assert SchemaOf(t).prefix.of[i] == SchemaOf(t.types[i]);
      Admitted(j.items[i], t.types[i]);
    }
  }

  lemma {:induction false} AdmittedRecord(j: Value, t: Type)
    requires t.RecordT? && WellFormed(t) && Conforms(j, SchemaOf(t))
    ensures Admits(j, t)
    decreases t, 0
  {
    var s := SchemaOf(t);
    RecordSchemaShape(t);
    hide Conforms;
    ObjectAccepts(j, s.properties.of, s.required, s.title);
    forall i | 0 <= i < |t.fields|
      ensures t.fields[i].0 in j.fields ==> Admits(j.fields[t.fields[i].0], t.fields[i].1)
      ensures t.fields[i].0 !in j.fields ==> t.fields[i].1.OptionT?
    {
      RecordSchemaFields(t, i);
      if t.fields[i].0 in j.fields {
        Admitted(j.fields[t.fields[i].0], t.fields[i].1);
      } else {
        assert t.fields[i].0 !in s.required;
      }
    }
    ReadFields(j, t);
  }

  /** A record is read field by field. */
  lemma ReadFields(j: Value, t: Type)
    requires t.RecordT? && j.Obj? && Distinct(NamesOf(t.fields)) && forall k :: k in j.fields ==> k in NamesOf(t.fields)
    requires forall i :: 0 <= i < |t.fields| ==>
               if t.fields[i].0 in j.fields then Admits(j.fields[t.fields[i].0], t.fields[i].1)
                   else t.fields[i].1.OptionT?
    ensures Admits(j, t)
  {
    var r := FromJson(j, t);
    assert r.Some? <==> forall i :: 0 <= i < |t.fields| ==> FromField(j.fields, t.fields[i].0, t.fields[i].1).Some?;
    if r.Some? {
      assert NamesOf(r.value.fields) == NamesOf(t.fields);
    }
  }

  lemma {:induction false} AdmittedVariant(j: Value, t: Type)
    requires t.VariantT? && WellFormed(t) && Conforms(j, SchemaOf(t))
    ensures Admits(j, t)
    decreases t, 0
  {
    hide Conforms, Admits;
    var i := SomeArm(j, t);
    var payload := if t.cases[i].1.Some? then Some(SchemaOf(t.cases[i].1.value)) else None;
    ArmShape(j, t.cases[i].0, payload);
    if payload.Some? {
      Admitted(j.fields["value"], t.cases[i].1.value);
    }
    ReadCase(j, t, i);
  }

  lemma SomeArm(j: Value, t: Type) returns (i: nat)
    requires t.VariantT? && Conforms(j, SchemaOf(t))
    ensures i < |t.cases|
    ensures Conforms(j, ArmSchema(t.cases[i].0, if t.cases[i].1.Some? then Some(SchemaOf(t.cases[i].1.value))
                                  else None))
  {
    var s := SchemaOf(t);
    assert ExactlyOne(j, s);
    hide Conforms;
    i :| 0 <= i < |s.oneOf.arms| && Conforms(j, s.oneOf.arms[i]);
  }

  lemma ReadCase(j: Value, t: Type, i: nat)
    requires t.VariantT? && Distinct(NamesOf(t.cases)) && i < |t.cases| && j.Obj?
    requires j.fields.Keys == (if t.cases[i].1.Some? then {"type", "value"} else {"type"})
              && j.fields["type"] == Str(t.cases[i].0)
    requires t.cases[i].1.Some? ==> Admits(j.fields["value"], t.cases[i].1.value)
    ensures Admits(j, t)
  {
    assert NamesOf(t.cases)[i] == t.cases[i].0;
    assert IndexOf(t.cases, t.cases[i].0) == Some(i);
    assert forall k :: 0 <= k < |t.cases| && t.cases[k].0 == t.cases[i].0 ==> k == i;
  }

  /** What conforms to a case's arm has the tag, the payload where there is one, and nothing else. */
  lemma ArmShape(j: Value, tag: string, payload: Option<Schema>)
    requires Conforms(j, ArmSchema(tag, payload))
    ensures j.Obj? && j.fields.Keys == (if payload.Some? then {"type", "value"} else {"type"})
              && j.fields["type"] == Str(tag)
    ensures payload.Some? ==> Conforms(j.fields["value"], payload.value)
  {
    hide Conforms;
    var s := ArmSchema(tag, payload);
    ObjectAccepts(j, s.properties.of, s.required, None);
    TagConforms(j.fields["type"], tag);
  }

  lemma {:induction false} AdmittedResult(j: Value, t: Type)
    requires t.ResultT? && WellFormed(t) && Conforms(j, SchemaOf(t))
    ensures Admits(j, t)
    decreases t, 0
  {
    hide Conforms, Admits;
    var isOk := EitherArm(j, t);
    var own := if isOk then t.ok else t.err;
    ObjectAccepts(j, map[Arm(isOk) := MaybeSchema(own)], {Arm(isOk)}, None);
    if own.Some? {
      Admitted(j.fields[Arm(isOk)], own.value);
    } else {
      NullKindOnlyNull(j.fields[Arm(isOk)]);
    }
    ReadArm(j, t, isOk);
  }

  lemma EitherArm(j: Value, t: Type) returns (isOk: bool)
    requires t.ResultT? && Conforms(j, SchemaOf(t))
    ensures Conforms(j, OneField(Arm(isOk), MaybeSchema(if isOk then t.ok else t.err)))
  {
    var s := SchemaOf(t);
    assert ExactlyOne(j, s);
    hide Conforms;
    var i :| 0 <= i < |s.oneOf.arms| && Conforms(j, s.oneOf.arms[i]);
    isOk := i == 0;
  }

  lemma ReadArm(j: Value, t: Type, isOk: bool)
    requires t.ResultT? && j.Obj? && j.fields.Keys == {Arm(isOk)}
    requires var own := if isOk then t.ok else t.err;
             if own.Some? then Admits(j.fields[Arm(isOk)], own.value) else j.fields[Arm(isOk)] == Null
    ensures Admits(j, t)
  {
  }

  lemma AdmittedFlags(j: Value, t: Type)
    requires t.FlagsT? && Conforms(j, SchemaOf(t))
    ensures Admits(j, t)
  {
    var s := SchemaOf(t);
    forall i | 0 <= i < |j.items|
      ensures j.items[i].Str? && j.items[i].s in t.names
    {
      assert ItemConforms(i, j.items[i], s);
      assert Conforms(j.items[i], s.items.schema);
    }
    var r := FromJson(j, t);
    assert r.Some?;
    forall a, b | 0 <= a < b < |j.items|
      ensures r.value.names[a] != r.value.names[b]
    {
      assert j.items[a] != j.items[b];
    }
  }

  // ---- Nothing is left open -------------------------------------------------------------------------------------

  /** A JSON value stands for at most one value of a type. */
  lemma {:induction false} SaysOne(j: Value, v: Val, w: Val, t: Type)
    requires HasType(v, t) && HasType(w, t) && Says(j, v) && Says(j, w)
    ensures v == w
    decreases t, 1
  {
    match t {
      case ListT(elem) =>
        forall i | 0 <= i < |v.items| ensures v.items[i] == w.items[i] {
          SaysOne(j.items[i], v.items[i], w.items[i], elem);
        }
      case MapT(_, _) => SaysOneMap(j, v, w, t);
      case TupleT(types) =>
        forall i | 0 <= i < |v.items| ensures v.items[i] == w.items[i] {
          SaysOne(j.items[i], v.items[i], w.items[i], types[i]);
        }
      case RecordT(_, _) => SaysOneRecord(j, v, w, t);
      case OptionT(inner) =>
        if j != Null {
          SaysOne(j, v.opt.value, w.opt.value, inner);
        }
      case VariantT(_) => SaysOneArm(j, v, w, t);
      case ResultT(_, _) => SaysOneArm(j, v, w, t);
      case _ =>
    }
  }

  lemma {:induction false} SaysOneRecord(j: Value, v: Val, w: Val, t: Type)
    requires t.RecordT? && HasType(v, t) && HasType(w, t) && Says(j, v) && Says(j, w)
    ensures v == w
    decreases t, 0
  {
    forall i | 0 <= i < |v.fields| ensures v.fields[i] == w.fields[i] {
      if t.fields[i].0 in j.fields {
        SaysOne(j.fields[t.fields[i].0], v.fields[i].1, w.fields[i].1, t.fields[i].1);
      }
    }
  }

  lemma {:induction false} SaysOneMap(j: Value, v: Val, w: Val, t: Type)
    requires t.MapT? && HasType(v, t) && HasType(w, t) && Says(j, v) && Says(j, w)
    ensures v == w
    decreases t, 0
  {
    if t.key.StringT? {
      forall k | k in v.dict ensures v.dict[k] == w.dict[k] {
        SaysOne(j.fields[k], v.dict[k], w.dict[k], t.value);
      }
    } else {
      forall i | 0 <= i < |v.pairs| ensures v.pairs[i] == w.pairs[i] {
        SaysOne(Pair(j.items[i]).value.0, v.pairs[i].0, w.pairs[i].0, t.key);
        SaysOne(Pair(j.items[i]).value.1, v.pairs[i].1, w.pairs[i].1, t.value);
      }
    }
  }

  lemma {:induction false} SaysOneArm(j: Value, v: Val, w: Val, t: Type)
    requires (t.VariantT? || t.ResultT?) && HasType(v, t) && HasType(w, t) && Says(j, v) && Says(j, w)
    ensures v == w
    decreases t, 0
  {
    if t.VariantT? {
      var ty := t.cases[IndexOf(t.cases, v.tag).value].1;
      if ty.Some? {
        SaysOne(j.fields["value"], v.payload.value, w.payload.value, ty.value);
      }
    } else {
      assert v.isOk == w.isOk;
      var ty := if v.isOk then t.ok else t.err;
      if ty.Some? {
        SaysOne(j.fields[Arm(v.isOk)], v.payload.value, w.payload.value, ty.value);
      }
    }
  }
}
