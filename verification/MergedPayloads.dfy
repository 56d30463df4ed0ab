/** Variant payloads that render as objects: merged with the tag, and when they can be told apart again. */
module MergedPayloads {
  import opened Json
  import opened Conversion
  import opened Wrappers

  // ---- Reading does not deepen ------------------------------------------------------------------------------

  /** Nested at most `n` deep. */
  ghost predicate Shallow(j: Value, n: nat)
    decreases n
  {
    match j
    case Arr(items) => n > 0 && forall i :: 0 <= i < |items| ==> Shallow(items[i], n - 1)
    case Obj(fields) => n > 0 && forall k :: k in fields ==> Shallow(fields[k], n - 1)
    case _ => true
  }

  lemma {:induction false} ShallowMore(j: Value, n: nat, m: nat)
    requires Shallow(j, n) && n <= m
    ensures Shallow(j, m)
    decreases n
  {
    match j {
      case Arr(items) =>
        forall i | 0 <= i < |items| ensures Shallow(items[i], m - 1) {
          ShallowMore(items[i], n - 1, m - 1);
        }
      case Obj(fields) =>
        forall k | k in fields ensures Shallow(fields[k], m - 1) {
          ShallowMore(fields[k], n - 1, m - 1);
        }
      case _ =>
    }
  }

  lemma {:induction false} DepthOf(j: Value) returns (n: nat)
    ensures Shallow(j, n)
    decreases j, 1, 0
  {
    match j {
      case Arr(items) =>
        var m := ItemsDepth(j, |items|);
        n := m + 1;
      case Obj(fields) =>
        var m := FieldsDepth(j, fields.Keys);
        n := m + 1;
      case _ => n := 0;
    }
  }

  lemma {:induction false} ItemsDepth(j: Value, k: nat) returns (n: nat)
    requires j.Arr? && k <= |j.items|
    ensures forall i :: 0 <= i < k ==> Shallow(j.items[i], n)
    decreases j, 0, k
  {
    if k == 0 {
      n := 0;
    } else {
      var a := ItemsDepth(j, k - 1);
      var b := DepthOf(j.items[k - 1]);
      n := a + b;
      forall i | 0 <= i < k ensures Shallow(j.items[i], n) {
        ShallowMore(j.items[i], if i < k - 1 then a else b, n);
      }
    }
  }

  lemma {:induction false} FieldsDepth(j: Value, keys: set<string>) returns (n: nat)
    requires j.Obj? && keys <= j.fields.Keys
    ensures forall k :: k in keys ==> Shallow(j.fields[k], n)
    decreases j, 0, |keys|
  {
    if keys == {} {
      n := 0;
    } else {
      var key :| key in keys;
      var a := FieldsDepth(j, keys - {key});
      var b := DepthOf(j.fields[key]);
      n := a + b;
      forall k | k in keys ensures Shallow(j.fields[k], n) {
        ShallowMore(j.fields[k], if k == key then b else a, n);
      }
    }
  }

  /** What is read renders no deeper than what it was read from. */
  lemma {:induction false} ReadShallow(j: Value, t: Type, n: nat)
    requires Shallow(j, n) && FromJson(j, t).Some?
    ensures Shallow(ToJson(FromJson(j, t).value), n)
    decreases t, 1
  {
    match t {
      case ListT(_) => ReadItemsShallow(j, t, n);
      case TupleT(_) => ReadItemsShallow(j, t, n);
      case MapT(_, _) => ReadMapShallow(j, t, n);
      case RecordT(_, _) => ReadRecordShallow(j, t, n);
      case OptionT(inner) => if !j.Null? { ReadShallow(j, inner, n); }
      case VariantT(_) => ReadVariantShallow(j, t, n);
      case ResultT(_, _) => ReadResultShallow(j, t, n);
      case _ =>
    }
  }

  lemma {:induction false} ReadItemsShallow(j: Value, t: Type, n: nat)
    requires (t.ListT? || t.TupleT?) && Shallow(j, n) && FromJson(j, t).Some?
    ensures Shallow(ToJson(FromJson(j, t).value), n)
    decreases t, 0
  {
    var v := FromJson(j, t).value;
    forall i | 0 <= i < |j.items|
      ensures Shallow(ToJson(v.items[i]), n - 1)
    {
      ReadShallow(j.items[i], if t.ListT? then t.elem else t.types[i], n - 1);
    }
    hide FromJson;
    assert forall i :: 0 <= i < |v.items| ==> ToJson(v).items[i] == ToJson(v.items[i]);
  }

  lemma {:induction false} ReadMapShallow(j: Value, t: Type, n: nat)
    requires t.MapT? && Shallow(j, n) && FromJson(j, t).Some?
    ensures Shallow(ToJson(FromJson(j, t).value), n)
    decreases t, 0
  {
    var v := FromJson(j, t).value;
    if j.Obj? {
      forall k | k in j.fields
        ensures Shallow(ToJson(v.dict[k]), n - 1)
      {
        ReadShallow(j.fields[k], t.value, n - 1);
      }
      hide FromJson;
      DictShallow(v, n);
    } else {
      forall i | 0 <= i < |v.pairs|
        ensures EntryShallow(v.pairs[i], n)
      {
        var pair := j.items[i];
        assert Shallow(pair, n - 1) && pair.Arr? && Shallow(pair.items[0], n - 2) && Shallow(pair.items[1], n - 2);
        hide ToJson;
        ReadShallow(pair.items[0], t.key, n - 2);
        ReadShallow(pair.items[1], t.value, n - 2);
      }
      hide FromJson, ToJson;
      PairsShallow(v, n);
    }
  }

  lemma DictShallow(v: Val, n: nat)
    requires v.DictV? && n > 0 && forall k :: k in v.dict ==> Shallow(ToJson(v.dict[k]), n - 1)
    ensures Shallow(ToJson(v), n)
  {
    assert forall k :: k in v.dict ==> ToJson(v).fields[k] == ToJson(v.dict[k]);
  }

  ghost predicate EntryShallow(entry: (Val, Val), n: nat) {
    n > 1 && Shallow(ToJson(entry.0), n - 2) && Shallow(ToJson(entry.1), n - 2)
  }

  lemma PairsRendered(v: Val)
    requires v.PairsV?
    ensures ToJson(v).Obj? || ToJson(v).Arr?
    ensures ToJson(v).Obj? ==> forall k :: k in ToJson(v).fields ==> RendersEntry(v, ToJson(v).fields[k])
    ensures ToJson(v).Arr? ==> |ToJson(v).items| == |v.pairs|
    ensures ToJson(v).Arr? ==>
              forall i :: 0 <= i < |v.pairs| ==> ToJson(v).items[i] == Arr([ToJson(v.pairs[i].0), ToJson(v.pairs[i].1)])
  {
  }

  predicate RendersEntry(v: Val, j: Value)
    requires v.PairsV?
  {
    exists i :: 0 <= i < |v.pairs| && j == ToJson(v.pairs[i].1)
  }

  lemma PairsShallow(v: Val, n: nat)
    requires v.PairsV? && n > 0 && forall i :: 0 <= i < |v.pairs| ==> EntryShallow(v.pairs[i], n)
    ensures Shallow(ToJson(v), n)
  {
    hide ToJson;
    PairsRendered(v);
    var j := ToJson(v);
    if j.Obj? {
      forall k | k in j.fields ensures Shallow(j.fields[k], n - 1) {
        assert RendersEntry(v, j.fields[k]);
        var i :| 0 <= i < |v.pairs| && j.fields[k] == ToJson(v.pairs[i].1);
        assert EntryShallow(v.pairs[i], n);
        ShallowMore(ToJson(v.pairs[i].1), n - 2, n - 1);
      }
    } else {
      forall i | 0 <= i < |j.items| ensures Shallow(j.items[i], n - 1) {
        assert EntryShallow(v.pairs[i], n);
      }
    }
  }

  lemma {:induction false} ReadRecordShallow(j: Value, t: Type, n: nat)
    requires t.RecordT? && Shallow(j, n) && FromJson(j, t).Some?
    ensures Shallow(ToJson(FromJson(j, t).value), n)
    decreases t, 0
  {
    var v := FromJson(j, t).value;
    forall i | 0 <= i < |t.fields|
      ensures Shallow(ToJson(v.fields[i].1), n - 1)
    {
      if t.fields[i].0 in j.fields {
        ReadShallow(j.fields[t.fields[i].0], t.fields[i].1, n - 1);
      }
    }
    hide FromJson;
    forall k | k in ToJson(v).fields
      ensures Shallow(ToJson(v).fields[k], n - 1)
    {
      var i := IndexOf(v.fields, k).value;
      assert ToJson(v).fields[k] == ToJson(v.fields[i].1);
    }
  }

  /** Only what renders as an object is read from one. */
  lemma {:induction false} ReadObject(j: Value, t: Type)
    requires j.Obj? && FromJson(j, t).Some?
    ensures ToJson(FromJson(j, t).value).Obj?
    decreases t
  {
    if t.OptionT? {
      ReadObject(j, t.inner);
    }
  }

  lemma {:induction false} ReadVariantShallow(j: Value, t: Type, n: nat)
    requires t.VariantT? && Shallow(j, n) && FromJson(j, t).Some?
    ensures Shallow(ToJson(FromJson(j, t).value), n)
    decreases t, 0
  {
    var v := FromJson(j, t).value;
    var ty := t.cases[IndexOf(t.cases, v.tag).value].1;
    if ty.Some? {
      var p := v.payload.value;
      var k := if "value" in j.fields then n - 1 else n;
      var payload := if "value" in j.fields then j.fields["value"] else Obj(j.fields - {"variant"});
      assert FromJson(payload, ty.value) == Some(p);
      assert Shallow(payload, k);
      ReadShallow(payload, ty.value, k);
      if k == n {
        ReadObject(payload, ty.value);
      }
      hide FromJson;
      WrappedShallow(v, n, k);
    }
  }

  /** A tag and a payload. */
  lemma WrappedShallow(v: Val, n: nat, k: nat)
    requires v.VariantV? && v.payload.Some? && n > 0 && n - 1 <= k <= n && Shallow(ToJson(v.payload.value), k)
    requires k == n ==> ToJson(v.payload.value).Obj?
    ensures Shallow(ToJson(v), n)
  {
    var inner := ToJson(v.payload.value);
    ShallowMore(inner, k, n);
    forall x | x in ToJson(v).fields ensures Shallow(ToJson(v).fields[x], n - 1) {
      if inner.Obj? && x in inner.fields {
        assert Shallow(inner.fields[x], n - 1);
      }
    }
  }

  lemma {:induction false} ReadResultShallow(j: Value, t: Type, n: nat)
    requires t.ResultT? && Shallow(j, n) && FromJson(j, t).Some?
    ensures Shallow(ToJson(FromJson(j, t).value), n)
    decreases t, 0
  {
    var v := FromJson(j, t).value;
    var arm := if "ok" in j.fields then "ok" else "error";
    var ty := if "ok" in j.fields then t.ok else t.err;
    if ty.Some? {
      ReadShallow(j.fields[arm], ty.value, n - 1);
    }
    hide FromJson;
    assert forall k :: k in ToJson(v).fields ==> Shallow(ToJson(v).fields[k], n - 1);
  }

  // ---- Telling tag and payload apart ------------------------------------------------------------------------

  /** A value without the options around it. */
  function Core(v: Val): Val {
    if v.OptionV? && v.opt.Some? then Core(v.opt.value) else v
  }

  function CoreType(t: Type): Type {
    if t.OptionT? then CoreType(t.inner) else t
  }

  /**
   * Whether the tag survives beside a payload. One that does not render as an object is kept under a name of its own,
   * and a result's single field disturbs nothing. Any other payload takes the tag's place or is taken for part of it,
   * unless it has no field named like the payload, has a field "type" that says the tag, and would not miss a field
   * "variant", which reading drops.
   */
  predicate Apart(tag: string, payload: Val) {
    var j, core := ToJson(payload), Core(payload);
    j.Obj? && !core.ResultV? ==>
      && "value" !in j.fields
      && "type" in j.fields && j.fields["type"] == Str(tag)
      && ("variant" in j.fields ==> core.VariantV? || (core.RecordV? && j.fields["variant"] == Null))
  }

  lemma {:induction false} CoreRenders(v: Val, t: Type)
    requires HasType(v, t) && ToJson(v) != Null
    ensures HasType(Core(v), CoreType(t)) && ToJson(Core(v)) == ToJson(v) && !Core(v).OptionV?
    decreases t
  {
    if t.OptionT? {
      CoreRenders(v.opt.value, t.inner);
    }
  }

  /** Options around a payload make no difference to how an object is read. */
  lemma {:induction false} CoreReads(j: Value, v: Val, t: Type)
    requires j != Null && HasType(v, t) && ToJson(v) != Null
    ensures FromJson(j, t) == Some(v) <==> FromJson(j, CoreType(t)) == Some(Core(v))
    decreases t
  {
    if t.OptionT? {
      CoreReads(j, v.opt.value, t.inner);
      assert FromJson(j, t) == Some(v) <==> FromJson(j, t.inner) == Some(v.opt.value);
    }
  }

  /** The payload a tagged object is read for. */
  function PayloadOf(fields: map<string, Value>): Value {
    if "value" in fields then fields["value"] else Obj(fields - {"variant"})
  }

  lemma TaggedRead(fields: map<string, Value>, t: Type, tag: string, payload: Val)
    requires t.VariantT? && IndexOf(t.cases, tag).Some? && t.cases[IndexOf(t.cases, tag).value].1.Some?
    ensures FromJson(Obj(fields), t) == Some(VariantV(tag, Some(payload))) <==>
              && "type" in fields && fields["type"] == Str(tag)
              && FromJson(PayloadOf(fields), t.cases[IndexOf(t.cases, tag).value].1.value) == Some(payload)
  {
  }

  /** A value is not read from a part of its own rendering. */
  lemma NotFromPart(v: Val, t: Type, k: string)
    requires ToJson(v).Obj? && k in ToJson(v).fields
    ensures FromJson(ToJson(v).fields[k], t) != Some(v)
  {
    var part := ToJson(v).fields[k];
    if FromJson(part, t) == Some(v) {
      var n := DepthOf(part);
      Descend(v, t, k, n);
    }
  }

  lemma {:induction false} Descend(v: Val, t: Type, k: string, n: nat)
    requires ToJson(v).Obj? && k in ToJson(v).fields && FromJson(ToJson(v).fields[k], t) == Some(v)
    ensures !Shallow(ToJson(v).fields[k], n)
    decreases n
  {
    hide ToJson, FromJson;
    var part := ToJson(v).fields[k];
    if Shallow(part, n) {
      ReadShallow(part, t, n);
      assert n > 0 && Shallow(part, n - 1);
      Descend(v, t, k, n - 1);
    }
  }

  /** How a merged payload comes back: by its own rendering, where nothing was lost to the tag. */
  lemma MergedRead(tag: string, payload: Val, t: Type)
    requires WellFormed(t) && HasType(payload, t) && ToJson(payload).Obj?
    ensures var fields := map["type" := Str(tag)] + ToJson(payload).fields;
            (fields["type"] == Str(tag) && FromJson(PayloadOf(fields), t) == Some(payload)) <==>
              Apart(tag, payload) && Returns(payload, t)
  {
    hide HasType, FromJson, ToJson;
    CoreRenders(payload, t);
    var core, ct := Core(payload), CoreType(t);
    var own := ToJson(payload).fields;
    var fields := map["type" := Str(tag)] + own;
    CoreWellFormed(t);
    CoreReads(Obj(own), payload, t);
    if "value" in own {
      NotFromPart(payload, t, "value");
      if core.ResultV? {
        ResultFields(core);
      }
    } else {
      CoreReads(PayloadOf(fields), payload, t);
      CoreMerged(tag, core, ct);
    }
  }

  lemma CoreWellFormed(t: Type)
    requires WellFormed(t)
    ensures WellFormed(CoreType(t)) && !CoreType(t).OptionT?
  {
  }

  lemma ResultFields(v: Val)
    requires v.ResultV?
    ensures ToJson(v).Obj? && (ToJson(v).fields.Keys == {"ok"} || ToJson(v).fields.Keys == {"error"})
  {
  }

  /** What a tag leaves of an object read without its field "variant". */
  ghost predicate Survives(tag: string, v: Val, t: Type)
    requires ToJson(v).Obj?
  {
    var fields := map["type" := Str(tag)] + ToJson(v).fields;
    fields["type"] == Str(tag) && FromJson(Obj(fields - {"variant"}), t) == Some(v)
  }

  lemma CoreMerged(tag: string, v: Val, t: Type)
    requires WellFormed(t) && HasType(v, t) && !v.OptionV? && ToJson(v).Obj? && "value" !in ToJson(v).fields
    ensures Survives(tag, v, t) <==> Apart(tag, v) && Returns(v, t)
  {
    if v.ResultV? {
      ResultMerged(tag, v, t);
    } else if v.VariantV? {
      VariantMerged(tag, v, t);
    } else if v.RecordV? {
      RecordMerged(tag, v, t);
    } else if v.DictV? {
      DictMerged(tag, v, t);
    } else {
      assert v.PairsV? && t.MapT? && !t.key.StringT?;
    }
  }

  lemma ResultMerged(tag: string, v: Val, t: Type)
    requires v.ResultV? && t.ResultT?
    ensures ToJson(v).Obj? && (Survives(tag, v, t) <==> Apart(tag, v) && Returns(v, t))
  {
    var fields := map["type" := Str(tag)] + ToJson(v).fields;
    ResultFields(v);
    assert FromJson(Obj(fields - {"variant"}), t) == FromJson(ToJson(v), t);
  }

  lemma VariantMerged(tag: string, v: Val, t: Type)
    requires v.VariantV? && t.VariantT? && "value" !in ToJson(v).fields
    ensures Survives(tag, v, t) <==> Apart(tag, v) && Returns(v, t)
  {
    var own := ToJson(v).fields;
    assert "type" in own;
    assert map["type" := Str(tag)] + own == own;
    assert own - {"variant"} - {"variant"} == own - {"variant"};
    hide ToJson;
    assert FromJson(Obj(own - {"variant"}), t) == FromJson(Obj(own), t);
  }

  lemma DictMerged(tag: string, v: Val, t: Type)
    requires v.DictV? && t.MapT? && t.key.StringT? && "value" !in ToJson(v).fields
    ensures Survives(tag, v, t) <==> Apart(tag, v) && Returns(v, t)
  {
    var own := ToJson(v).fields;
    var fields := map["type" := Str(tag)] + own;
    var read := FromJson(Obj(fields - {"variant"}), t);
    assert own.Keys == v.dict.Keys;
    if "type" in own {
      assert fields == own;
      if "variant" !in own {
        assert own - {"variant"} == own;
      } else {
        assert read.Some? ==> "variant" !in read.value.dict;
      }
    } else {
      assert "type" in fields - {"variant"};
      assert read.Some? ==> "type" in read.value.dict;
    }
  }

  lemma RecordMerged(tag: string, v: Val, t: Type)
    requires v.RecordV? && t.RecordT? && WellFormed(t) && HasType(v, t) && "value" !in ToJson(v).fields
    ensures Survives(tag, v, t) <==> Apart(tag, v) && Returns(v, t)
  {
    hide HasType, FromJson, FromField, ToJson;
    NamesAlike(v, t);
    var own := ToJson(v).fields;
    var fields := map["type" := Str(tag)] + own;
    if "type" !in own {
      assert "type" in fields - {"variant"};
      UnknownField(fields - {"variant"}, v, t, "type");
    } else {
      assert fields == own;
      if "variant" !in own {
        assert own - {"variant"} == own;
      } else {
        WithoutVariant(v, t);
      }
    }
  }

  /** A record's keys are its fields' names. */
  lemma OwnNames(v: Val, t: Type, k: string)
    requires t.RecordT? && WellFormed(t) && HasType(v, t)
    ensures ToJson(v).Obj? && (k in ToJson(v).fields <==> k in NamesOf(t.fields))
  {
    assert NamesOf(v.fields) == NamesOf(t.fields);
  }

  lemma UnknownField(fields: map<string, Value>, v: Val, t: Type, k: string)
    requires t.RecordT? && WellFormed(t) && HasType(v, t) && k in fields && k !in ToJson(v).fields
    ensures FromJson(Obj(fields), t).None?
  {
    OwnNames(v, t, k);
    hide FromField, ToJson, HasType;
  }

  /** Reading a record without its field "variant": right if the field is an option without a value. */
  lemma WithoutVariant(v: Val, t: Type)
    requires v.RecordV? && t.RecordT? && WellFormed(t) && HasType(v, t) && ToJson(v).Obj?
              && "variant" in ToJson(v).fields
    ensures FromJson(Obj(ToJson(v).fields - {"variant"}), t) == Some(v)
            <==> ToJson(v).fields["variant"] == Null && Returns(v, t)
  {
    hide HasType, FromJson, ToJson, FromField;
    NamesAlike(v, t);
    OwnNames(v, t, "variant");
    var own := ToJson(v).fields;
    var less := own - {"variant"};
    var at :| 0 <= at < |t.fields| && NamesOf(t.fields)[at] == "variant";
    forall i | 0 <= i < |t.fields| && i != at
      ensures FromField(less, t.fields[i].0, t.fields[i].1) == FromField(own, t.fields[i].0, t.fields[i].1)
    {
      assert NamesOf(t.fields)[i] != "variant";
      SameField(less, own, t.fields[i].0, t.fields[i].1);
    }
    RecordFields(v, t, at);
    MissingField(less, own, "variant", t.fields[at].1, v.fields[at].1);
    RecordReadAs(less, v, t);
    RecordReadAs(own, v, t);
  }

  lemma SameField(a: map<string, Value>, b: map<string, Value>, name: string, t: Type)
    requires name in a <==> name in b
    requires name in a ==> a[name] == b[name]
    ensures FromField(a, name, t) == FromField(b, name, t)
  {
  }

  lemma MissingField(less: map<string, Value>, own: map<string, Value>, name: string, t: Type, x: Val)
    requires name !in less && name in own && own[name] == ToJson(x)
    ensures FromField(less, name, t) == Some(x) <==> own[name] == Null && FromField(own, name, t) == Some(x)
  {
  }

  /** A record is read as `v` when each of its fields is, and nothing else is there. */
  lemma RecordReadAs(fields: map<string, Value>, v: Val, t: Type)
    requires t.RecordT? && v.RecordV? && |v.fields| == |t.fields|
    requires forall i :: 0 <= i < |v.fields| ==> v.fields[i].0 == t.fields[i].0
    requires forall k :: k in fields ==> k in NamesOf(t.fields)
    ensures FromJson(Obj(fields), t) == Some(v) <==>
              forall i :: 0 <= i < |t.fields| ==> FromField(fields, t.fields[i].0, t.fields[i].1) == Some(v.fields[i].1)
  {
    hide FromField;
    var r := FromJson(Obj(fields), t);
    if r == Some(v) {
      forall i | 0 <= i < |t.fields|
        ensures FromField(fields, t.fields[i].0, t.fields[i].1) == Some(v.fields[i].1)
      {
        assert r.value.fields[i] == v.fields[i];
      }
    }
    if forall i :: 0 <= i < |t.fields| ==> FromField(fields, t.fields[i].0, t.fields[i].1) == Some(v.fields[i].1) {
      assert r.value.fields == v.fields;
    }
  }

  /** A variant with a payload comes back exactly when the payload does and is apart from the tag. */
  lemma PayloadReturns(v: Val, t: Type)
    requires t.VariantT? && WellFormed(t) && HasType(v, t) && v.payload.Some?
    ensures var ty := t.cases[IndexOf(t.cases, v.tag).value].1;
            ty.Some? && (Returns(v, t) <==> Apart(v.tag, v.payload.value) && Returns(v.payload.value, ty.value))
  {
    var p, ty := v.payload.value, t.cases[IndexOf(t.cases, v.tag).value].1.value;
    var j := ToJson(p);
    var fields := if j.Obj? then map["type" := Str(v.tag)] + j.fields else map["type" := Str(v.tag), "value" := j];
    assert ToJson(v) == Obj(fields);
    TaggedRead(fields, t, v.tag, p);
    if j.Obj? {
      MergedRead(v.tag, p, ty);
    }
  }

  /**
   * A record payload, or an option of one, without fields "type" and "value" is never read back: reading removes a
   * field "variant", not the tag, and then refuses the tag as a field of the record.
   */
  lemma MergedPayloadLost(v: Val, t: Type)
    requires t.VariantT? && WellFormed(t) && HasType(v, t) && v.payload.Some? && Core(v.payload.value).RecordV?
    requires var names := NamesOf(Core(v.payload.value).fields); "type" !in names && "value" !in names
    ensures FromJson(ToJson(v), t) == None
  {
    var p, ty := v.payload.value, t.cases[IndexOf(t.cases, v.tag).value].1.value;
    RendersAsRecord(p, ty);
    var own := ToJson(p).fields;
    var fields := map["type" := Str(v.tag)] + own;
    assert ToJson(v) == Obj(fields);
    hide ToJson, HasType;
    assert "type" in fields - {"variant"};
    UnknownField(fields - {"variant"}, Core(p), CoreType(ty), "type");
    NotReadInside(Obj(fields - {"variant"}), ty);
    hide FromJson;
    UntaggedRead(fields, t, v.tag);
  }

  lemma RendersAsRecord(p: Val, t: Type)
    requires WellFormed(t) && HasType(p, t) && Core(p).RecordV?
    ensures WellFormed(CoreType(t)) && CoreType(t).RecordT? && HasType(Core(p), CoreType(t))
    ensures ToJson(p).Obj? && ToJson(Core(p)) == ToJson(p)
    ensures forall k :: k in ToJson(p).fields <==> k in NamesOf(Core(p).fields)
    decreases p
  {
    if p.OptionV? {
      RendersAsRecord(p.opt.value, t.inner);
    }
  }

  lemma {:induction false} NotReadInside(j: Value, t: Type)
    requires j != Null && FromJson(j, CoreType(t)).None?
    ensures FromJson(j, t).None?
    decreases t
  {
    if t.OptionT? {
      NotReadInside(j, t.inner);
    }
  }

  lemma UntaggedRead(fields: map<string, Value>, t: Type, tag: string)
    requires t.VariantT? && IndexOf(t.cases, tag).Some? && t.cases[IndexOf(t.cases, tag).value].1.Some?
    requires "type" in fields && fields["type"] == Str(tag)
    requires FromJson(PayloadOf(fields), t.cases[IndexOf(t.cases, tag).value].1.value).None?
    ensures FromJson(Obj(fields), t).None?
  {
  }

  /** The smallest loss: a case with a record of one field. */
  lemma MergedPayloadExample(tag: string, b: bool)
    ensures var t := VariantT([(tag, Some(RecordT(None, [("a", BoolT)])))]);
            var v := VariantV(tag, Some(RecordV([("a", BoolV(b))])));
            WellFormed(t) && HasType(v, t) && FromJson(ToJson(v), t) == None
  {
    hide ToJson, FromJson;
    var record, p := RecordT(None, [("a", BoolT)]), RecordV([("a", BoolV(b))]);
    var t, v := VariantT([(tag, Some(record))]), VariantV(tag, Some(p));
    assert WellFormed(record) && HasType(p, record);
    assert IndexOf(t.cases, tag) == Some(0);
    assert NamesOf(p.fields) == ["a"];
    assert WellFormed(t) && HasType(v, t) by {
      hide IndexOf;
    }
    hide WellFormed, HasType;
    MergedPayloadLost(v, t);
  }

  /** A result as payload comes back whenever it does on its own. */
  lemma ResultPayloadReturns(v: Val, t: Type)
    requires t.VariantT? && WellFormed(t) && HasType(v, t) && v.payload.Some? && Core(v.payload.value).ResultV?
    ensures var ty := t.cases[IndexOf(t.cases, v.tag).value].1;
              ty.Some? && (Returns(v, t) <==> Returns(v.payload.value, ty.value))
  {
    hide ToJson, FromJson, WellFormed, HasType;
    PayloadReturns(v, t);
  }
}
