/** The two conversions as written: each collection is built up element by element. */
module Converter {
  import opened Json
  import opened Conversion
  import opened Wrappers

  lemma IndexOfPush(fields: seq<(string, Val)>, i: nat, k: string)
    requires i < |fields|
    ensures IndexOf(fields[..i + 1], k) == if k == fields[i].0 then Some(i) else IndexOf(fields[..i], k)
  {
    assert fields[..i + 1][..i] == fields[..i];
  }

  /** Inserting the next field of a record. */
  lemma RecordPush(fields: seq<(string, Val)>, i: nat)
    requires i < |fields|
    ensures ToJson(RecordV(fields[..i + 1])).fields ==
              ToJson(RecordV(fields[..i])).fields[fields[i].0 := ToJson(fields[i].1)]
  {
    hide IndexOf, NamesOf;
    var before, after := fields[..i], fields[..i + 1];
    var x, y := ToJson(RecordV(before)).fields, ToJson(RecordV(after)).fields;
    forall k
      ensures k in y <==> k in x || k == fields[i].0
      ensures k in y ==> y[k] == if k == fields[i].0 then ToJson(fields[i].1) else x[k]
    {
      IndexOfPush(fields, i, k);
    }
  }

  method ValToJson(v: Val) returns (j: Value)
    ensures j == ToJson(v)
    decreases v
  {
    match v {
      case ListV(items) =>
        var out: seq<Value> := [];
        for i := 0 to |items|
          invariant |out| == i && forall k :: 0 <= k < i ==> out[k] == ToJson(items[k])
        {
          var item := ValToJson(items[i]);
          out := out + [item];
        }
        assert out == ToJson(v).items;
        j := Arr(out);
      case TupleV(items) =>
        var out: seq<Value> := [];
        for i := 0 to |items|
          invariant |out| == i && forall k :: 0 <= k < i ==> out[k] == ToJson(items[k])
        {
          var item := ValToJson(items[i]);
          out := out + [item];
        }
        assert out == ToJson(v).items;
        j := Arr(out);
      case DictV(_) => j := DictToJson(v);
      case RecordV(_) => j := RecordToJson(v);
      case OptionV(opt) =>
        if opt.Some? {
          j := ValToJson(opt.value);
        } else {
          j := Null;
        }
      case VariantV(tag, payload) =>
        var out := map["type" := Str(tag)];
        if payload.Some? {
          var inner := ValToJson(payload.value);
          match inner {
            case Obj(fields) => out := out + fields;
            case _ => out := out["value" := inner];
          }
        }
        assert payload.Some? && !ToJson(payload.value).Obj? ==>
          out == map["type" := Str(tag), "value" := ToJson(payload.value)];
        j := Obj(out);
      case ResultV(isOk, payload) =>
        var inner := Null;
        if payload.Some? {
          inner := ValToJson(payload.value);
        }
        j := Obj(map[if isOk then "ok" else "error" := inner]);
      case PairsV(pairs) =>
        j := PairsToJson(v);
      case FlagsV(names) =>
        var out: seq<Value> := [];
        for i := 0 to |names|
          invariant |out| == i && forall k :: 0 <= k < i ==> out[k] == Str(names[k])
        {
          out := out + [Str(names[i])];
        }
        assert out == ToJson(v).items;
        j := Arr(out);
      case _ =>
        j := ToJson(v);
    }
  }

  method DictToJson(v: Val) returns (j: Value)
    requires v.DictV?
    ensures j == ToJson(v)
    decreases v, 0
  {
    var dict := v.dict;
    var out: map<string, Value> := map[];
    var rest := dict.Keys;
    while rest != {}
      invariant rest <= dict.Keys && out.Keys == dict.Keys - rest
      invariant forall k :: k in out ==> out[k] == ToJson(dict[k])
      decreases |rest|
    {
      var k :| k in rest;
      var value := ValToJson(dict[k]);
      out := out[k := value];
      rest := rest - {k};
    }
    assert out == ToJson(v).fields;
    j := Obj(out);
  }

  method RecordToJson(v: Val) returns (j: Value)
    requires v.RecordV?
    ensures j == ToJson(v)
    decreases v, 0
  {
    var fields := v.fields;
    var out: map<string, Value> := map[];
    assert NamesOf(fields[..0]) == [];
    assert ToJson(RecordV(fields[..0])).fields == map[];
    for i := 0 to |fields|
      invariant out == ToJson(RecordV(fields[..i])).fields
    {
      var value := ValToJson(fields[i].1);
      RecordPush(fields, i);
      out := out[fields[i].0 := value];
    }
    assert fields[..|fields|] == fields;
    j := Obj(out);
  }

  /** Entries whose keys are all strings become an object, others an array of pairs. */
  method PairsToJson(v: Val) returns (j: Value)
    requires v.PairsV?
    ensures j == ToJson(v)
    decreases v, 0
  {
    var pairs := v.pairs;
    if forall i :: 0 <= i < |pairs| ==> pairs[i].0.StringV? {
      return ToJson(v);
    }
    var out: seq<Value> := [];
    for i := 0 to |pairs|
      invariant |out| == i && forall k :: 0 <= k < i ==> out[k] == Arr([ToJson(pairs[k].0), ToJson(pairs[k].1)])
    {
      var key := ValToJson(pairs[i].0);
      var value := ValToJson(pairs[i].1);
      out := out + [Arr([key, value])];
    }
    assert out == ToJson(v).items;
    j := Arr(out);
  }

  method JsonToVal(j: Value, t: Type) returns (r: Option<Val>)
    ensures r == FromJson(j, t)
    decreases t, 1
  {
    match t {
      case ListT(elem) => r := ReadList(j, t);
      case MapT(key, value) =>
        if j.Obj? {
          r := ReadDict(j, t);
        } else {
          r := ReadPairs(j, t);
        }
      case TupleT(types) => r := ReadTuple(j, t);
      case RecordT(_, fields) => r := ReadRecord(j, t);
      case OptionT(inner) =>
        if j.Null? {
          return Some(OptionV(None));
        }
        var v := JsonToVal(j, inner);
        r := if v.Some? then Some(OptionV(Some(v.value))) else None;
      case VariantT(cases) =>
        if !j.Obj? || "type" !in j.fields || !j.fields["type"].Str? {
          return None;
        }
        var tag := j.fields["type"].s;
        var found := IndexOf(cases, tag);
        if found.None? {
          return None;
        }
        if cases[found.value].1.None? {
          return Some(VariantV(tag, None));
        }
        var payload := if "value" in j.fields then j.fields["value"] else Obj(j.fields - {"variant"});
        var v := JsonToVal(payload, cases[found.value].1.value);
        r := if v.Some? then Some(VariantV(tag, Some(v.value))) else None;
      case ResultT(ok, err) =>
        if !j.Obj? || ("ok" !in j.fields && "error" !in j.fields) {
          return None;
        }
        var isOk := "ok" in j.fields;
        var arm := if isOk then ok else err;
        if arm.None? {
          return Some(ResultV(isOk, None));
        }
        var v := JsonToVal(if isOk then j.fields["ok"] else j.fields["error"], arm.value);
        r := if v.Some? then Some(ResultV(isOk, Some(v.value))) else None;
      case FlagsT(names) => r := ReadFlags(j, names);
      case _ => r := FromJson(j, t);
    }
  }

  method ReadFlags(j: Value, names: seq<string>) returns (r: Option<Val>)
    ensures r == FromJson(j, FlagsT(names))
  {
    if !j.Arr? {
      return None;
    }
    var out: seq<string> := [];
    for i := 0 to |j.items|
      invariant |out| == i && forall k :: 0 <= k < i ==>
                  j.items[k].Str? && j.items[k].s in names && out[k] == j.items[k].s
    {
      if !j.items[i].Str? || j.items[i].s !in names {
        return None;
      }
      out := out + [j.items[i].s];
    }
    assert out == FromJson(j, FlagsT(names)).value.names;
    r := Some(FlagsV(out));
  }

  method ReadList(j: Value, t: Type) returns (r: Option<Val>)
    requires t.ListT?
    ensures r == FromJson(j, t)
    decreases t, 0
  {
    if !j.Arr? {
      return None;
    }
    var out: seq<Val> := [];
    for i := 0 to |j.items|
      invariant |out| == i && forall k :: 0 <= k < i ==> FromJson(j.items[k], t.elem) == Some(out[k])
    {
      var v := JsonToVal(j.items[i], t.elem);
      if v.None? {
        return None;
      }
      out := out + [v.value];
    }
    assert out == FromJson(j, t).value.items;
    r := Some(ListV(out));
  }

  method ReadTuple(j: Value, t: Type) returns (r: Option<Val>)
    requires t.TupleT?
    ensures r == FromJson(j, t)
    decreases t, 0
  {
    if !j.Arr? || |j.items| != |t.types| {
      return None;
    }
    var out: seq<Val> := [];
    for i := 0 to |j.items|
      invariant |out| == i && forall k :: 0 <= k < i ==> FromJson(j.items[k], t.types[k]) == Some(out[k])
    {
      var v := JsonToVal(j.items[i], t.types[i]);
      if v.None? {
        return None;
      }
      out := out + [v.value];
    }
    assert out == FromJson(j, t).value.items;
    r := Some(TupleV(out));
  }

  method ReadDict(j: Value, t: Type) returns (r: Option<Val>)
    requires t.MapT? && j.Obj?
    ensures r == FromJson(j, t)
    decreases t, 0
  {
    if !t.key.StringT? {
      return None;
    }
    var out: map<string, Val> := map[];
    var rest := j.fields.Keys;
    while rest != {}
      invariant rest <= j.fields.Keys && out.Keys == j.fields.Keys - rest
      invariant forall k :: k in out ==> FromJson(j.fields[k], t.value) == Some(out[k])
      decreases |rest|
    {
      var k :| k in rest;
      var v := JsonToVal(j.fields[k], t.value);
      if v.None? {
        return None;
      }
      out := out[k := v.value];
      rest := rest - {k};
    }
    assert out == FromJson(j, t).value.dict;
    r := Some(DictV(out));
  }

  method ReadPairs(j: Value, t: Type) returns (r: Option<Val>)
    requires t.MapT? && !j.Obj?
    ensures r == FromJson(j, t)
    decreases t, 0
  {
    if !j.Arr? {
      return None;
    }
    var out: seq<(Val, Val)> := [];
    for i := 0 to |j.items|
      invariant |out| == i
      invariant forall k :: 0 <= k < i ==> Pair(j.items[k]).Some?
      invariant forall k :: 0 <= k < i ==> FromJson(Pair(j.items[k]).value.0, t.key) == Some(out[k].0)
      invariant forall k :: 0 <= k < i ==> FromJson(Pair(j.items[k]).value.1, t.value) == Some(out[k].1)
    {
      var pair := Pair(j.items[i]);
      if pair.None? {
        return None;
      }
      var key := JsonToVal(pair.value.0, t.key);
      if key.None? {
        return None;
      }
      var value := JsonToVal(pair.value.1, t.value);
      if value.None? {
        return None;
      }
      out := out + [(key.value, value.value)];
    }
    assert out == FromJson(j, t).value.pairs;
    r := Some(PairsV(out));
  }

  method ReadRecord(j: Value, t: Type) returns (r: Option<Val>)
    requires t.RecordT?
    ensures r == FromJson(j, t)
    decreases t, 0
  {
    if !j.Obj? {
      return None;
    }
    var out: seq<(string, Val)> := [];
    for i := 0 to |t.fields|
      invariant |out| == i
      invariant forall k :: 0 <= k < i ==>
                  out[k].0 == t.fields[k].0 && FromField(j.fields, t.fields[k].0, t.fields[k].1) == Some(out[k].1)
    {
      var (name, ty) := t.fields[i];
      if name in j.fields {
        var v := JsonToVal(j.fields[name], ty);
        if v.None? {
          return None;
        }
        out := out + [(name, v.value)];
      } else if ty.OptionT? {
        out := out + [(name, OptionV(None))];
      } else {
        return None;
      }
    }
    if k :| k in j.fields && k !in NamesOf(t.fields) {
      return None;
    }
    assert out == FromJson(j, t).value.fields;
    r := Some(RecordV(out));
  }
}
