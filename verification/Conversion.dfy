/** Component values as JSON and back. */
module Conversion {
  import opened Json
  import opened Decimals
  import opened Wrappers

  /** WIT types that values cross as JSON. */
  datatype Type =
    | BoolT
    | StringT
    | CharT
    | IntT(signed: bool, bits: nat)
    | FloatT(bits: nat)
    | ListT(elem: Type)
    | MapT(key: Type, value: Type)
    | TupleT(types: seq<Type>)
    | RecordT(name: Option<string>, fields: seq<(string, Type)>)
    | OptionT(inner: Type)
    | VariantT(cases: seq<(string, Option<Type>)>)
    | EnumT(names: seq<string>)
    | ResultT(ok: Option<Type>, err: Option<Type>)
    | FlagsT(names: seq<string>)

  datatype Float = Finite(r: real) | NonFinite

  /** Component values. A map with string keys is one without order; any other is a list of entries. */
  datatype Val =
    | BoolV(b: bool)
    | StringV(s: string)
    | CharV(c: char)
    | IntV(signed: bool, bits: nat, n: int)
    | FloatV(bits: nat, f: Float)
    | ListV(items: seq<Val>)
    | DictV(dict: map<string, Val>)
    | PairsV(pairs: seq<(Val, Val)>)
    | TupleV(items: seq<Val>)
    | RecordV(fields: seq<(string, Val)>)
    | OptionV(opt: Option<Val>)
    | VariantV(tag: string, payload: Option<Val>)
    | EnumV(tag: string)
    | ResultV(isOk: bool, payload: Option<Val>)
    | FlagsV(names: seq<string>)

  // ---- Typing --------------------------------------------------------------------------------------------------

  function Power(bits: nat): nat {
    if bits == 8 then 0x100 else if bits == 16 then 0x1_0000 else if bits == 32 then 0x1_0000_0000
        else 0x1_0000_0000_0000_0000
  }

  predicate InRange(signed: bool, bits: nat, n: int) {
    if signed then -(Power(bits) / 2) <= n < Power(bits) / 2 else 0 <= n < Power(bits)
  }

  predicate Distinct(names: seq<string>) {
    forall i, j :: 0 <= i < j < |names| ==> names[i] != names[j]
  }

  function NamesOf<T>(fields: seq<(string, T)>): (r: seq<string>)
    ensures |r| == |fields| && forall i :: 0 <= i < |r| ==> r[i] == fields[i].0
  {
    seq(|fields|, i requires 0 <= i < |fields| => fields[i].0)
  }

  /** The last entry of a name. */
  function IndexOf<T>(fields: seq<(string, T)>, name: string): (r: Option<nat>)
    ensures r.Some? ==> r.value < |fields| && fields[r.value].0 == name
    ensures r.None? <==> name !in NamesOf(fields)
    ensures r.Some? && Distinct(NamesOf(fields)) ==> forall i :: 0 <= i < |fields| && fields[i].0 == name ==>
              i == r.value
  {
    if fields == [] then None else
    var last := |fields| - 1;
    assert NamesOf(fields) == NamesOf(fields[..last]) + [fields[last].0];
    if fields[last].0 == name then Some(last) else
    assert forall i :: 0 <= i < last ==> NamesOf(fields)[i] == NamesOf(fields[..last])[i];
    IndexOf(fields[..last], name)
  }

  /** Names are distinct, sizes are the standard ones. */
  predicate WellFormed(t: Type) {
    match t
    case IntT(_, bits) => bits == 8 || bits == 16 || bits == 32 || bits == 64
    case FloatT(bits) => bits == 32 || bits == 64
    case ListT(elem) => WellFormed(elem)
    case MapT(key, value) => WellFormed(key) && WellFormed(value)
    case TupleT(types) => forall i :: 0 <= i < |types| ==> WellFormed(types[i])
    case RecordT(_, fields) => Distinct(NamesOf(fields)) && forall i :: 0 <= i < |fields| ==> WellFormed(fields[i].1)
    case OptionT(inner) => WellFormed(inner)
    case VariantT(cases) => Distinct(NamesOf(cases)) && forall i :: 0 <= i < |cases| && cases[i].1.Some? ==>
        WellFormed(cases[i].1.value)
    case EnumT(names) => Distinct(names)
    case ResultT(ok, err) => (ok.Some? ==> WellFormed(ok.value)) && (err.Some? ==> WellFormed(err.value))
    case FlagsT(names) => Distinct(names)
    case _ => true
  }

  predicate HasType(v: Val, t: Type)
    decreases t
  {
    match t
    case BoolT => v.BoolV?
    case StringT => v.StringV?
    case CharT => v.CharV?
    case IntT(signed, bits) => v.IntV? && v.signed == signed && v.bits == bits && InRange(signed, bits, v.n)
    case FloatT(bits) => v.FloatV? && v.bits == bits
    case ListT(elem) => v.ListV? && forall i :: 0 <= i < |v.items| ==> HasType(v.items[i], elem)
    case MapT(key, value) =>
      if key.StringT? then v.DictV? && forall k :: k in v.dict ==> HasType(v.dict[k], value)
      else v.PairsV? && forall i :: 0 <= i < |v.pairs| ==> HasType(v.pairs[i].0, key) && HasType(v.pairs[i].1, value)
    case TupleT(types) => v.TupleV? && |v.items| == |types| && forall i :: 0 <= i < |types| ==>
        HasType(v.items[i], types[i])
    case RecordT(_, fields) =>
      && v.RecordV? && |v.fields| == |fields|
      && forall i :: 0 <= i < |fields| ==> v.fields[i].0 == fields[i].0 && HasType(v.fields[i].1, fields[i].1)
    case OptionT(inner) => v.OptionV? && (v.opt.Some? ==> HasType(v.opt.value, inner))
    case VariantT(cases) =>
      && v.VariantV? && IndexOf(cases, v.tag).Some?
      && var ty := cases[IndexOf(cases, v.tag).value].1;
      if ty.Some? then v.payload.Some? && HasType(v.payload.value, ty.value) else v.payload.None?
    case EnumT(names) => v.EnumV? && v.tag in names
    case ResultT(ok, err) =>
      && v.ResultV?
      && var ty := if v.isOk then ok else err;
      if ty.Some? then v.payload.Some? && HasType(v.payload.value, ty.value) else v.payload.None?
    case FlagsT(names) => v.FlagsV? && Distinct(v.names) && forall n :: n in v.names ==> n in names
  }

  // ---- To JSON ------------------------------------------------------------------------------------------------------

  function ToJson(v: Val): Value {
    match v
    case BoolV(b) => Bool(b)
    case StringV(s) => Str(s)
    case CharV(c) => Str([c])
    case IntV(_, _, n) => Num(Int(n))
    case FloatV(_, f) => if f.Finite? then Num(Fraction(f.r)) else Null
    case ListV(items) => Arr(seq(|items|, i requires 0 <= i < |items| => ToJson(items[i])))
    case DictV(dict) => Obj(map k | k in dict :: ToJson(dict[k]))
    case PairsV(pairs) =>
      if forall i :: 0 <= i < |pairs| ==> pairs[i].0.StringV? then
        var named := seq(|pairs|, i requires 0 <= i < |pairs| => (pairs[i].0.s, i));
        Obj(map k | k in NamesOf(named)
            && IndexOf(named, k).value < |pairs| :: ToJson(pairs[IndexOf(named, k).value].1))
      else Arr(seq(|pairs|, i requires 0 <= i < |pairs| => Arr([ToJson(pairs[i].0), ToJson(pairs[i].1)])))
    case TupleV(items) => Arr(seq(|items|, i requires 0 <= i < |items| => ToJson(items[i])))
    case RecordV(fields) => Obj(map k | k in NamesOf(fields) :: ToJson(fields[IndexOf(fields, k).value].1))
    case OptionV(opt) => if opt.Some? then ToJson(opt.value) else Null
    case VariantV(tag, payload) =>
      if payload.None? then Obj(map["type" := Str(tag)]) else
      (match ToJson(payload.value)
       case Obj(fields) => Obj(map["type" := Str(tag)] + fields)
       case other => Obj(map["type" := Str(tag), "value" := other]))
    case EnumV(tag) => Str(tag)
    case ResultV(isOk, payload) =>
      Obj(map[if isOk then "ok" else "error" := if payload.Some? then ToJson(payload.value) else Null])
    case FlagsV(names) => Arr(seq(|names|, i requires 0 <= i < |names| => Str(names[i])))
  }

  // ---- From JSON ----------------------------------------------------------------------------------------------------

  /** A decimal integer with an optional sign, minus only where signed. */
  function ParseInt(s: string, signed: bool): Option<int> {
    var negative := signed && "-" <= s;
    var digits := if negative || "+" <= s then s[1..] else s;
    if digits == "" || !AllDigits(digits) then None
    else Some(if negative then 0 - DigitsValue(digits) else DigitsValue(digits))
  }

  /** An integer in decimal. */
  function Decimal(n: int): string {
    if n < 0 then "-" + Digits(-n) else Digits(n)
  }

  /** Truncation to the type's width, as a cast does. */
  function Truncate(signed: bool, bits: nat, n: int): int {
    var m := n % Power(bits);
    if signed && m >= Power(bits) / 2 then m - Power(bits) else m
  }

  function FromNumber(n: Number, signed: bool, bits: nat): Option<Val> {
    if n.Int? && InRange(signed, 64, n.i) then Some(IntV(signed, bits, Truncate(signed, bits, n.i))) else None
  }

  function Pair(v: Value): Option<(Value, Value)> {
    if v.Arr? && |v.items| == 2 then Some((v.items[0], v.items[1])) else None
  }

  function FromField(fields: map<string, Value>, name: string, t: Type): Option<Val>
    decreases t, 1
  {
    if name in fields then FromJson(fields[name], t)
    else if t.OptionT? then Some(OptionV(None))
    else None
  }

  function FromJson(j: Value, t: Type): Option<Val>
    decreases t, 0
  {
    match t
    case BoolT => if j.Bool? then Some(BoolV(j.b)) else None
    case StringT => if j.Str? then Some(StringV(j.s)) else None
    case CharT => if j.Str? && |j.s| == 1 then Some(CharV(j.s[0])) else None
    case IntT(signed, bits) =>
      if j.Str? then
        (match ParseInt(j.s, signed)
         case None => None
         case Some(n) => if InRange(signed, bits, n) then Some(IntV(signed, bits, n)) else None)
      else if j.Num? then FromNumber(j.n, signed, bits)
      else None
    case FloatT(bits) => if j.Num? then Some(FloatV(bits, Finite(Quantity(j.n)))) else None
    case ListT(elem) =>
      if j.Arr? && forall i :: 0 <= i < |j.items| ==> FromJson(j.items[i], elem).Some?
      then Some(ListV(seq(|j.items|, i requires 0 <= i < |j.items| => FromJson(j.items[i], elem).value)))
      else None
    case MapT(key, value) =>
      if j.Obj? then
        (if key.StringT? && forall k :: k in j.fields ==> FromJson(j.fields[k], value).Some?
         then Some(DictV(map k | k in j.fields :: FromJson(j.fields[k], value).value))
         else None)
      else if j.Arr? && forall i :: 0 <= i < |j.items| ==>
             (Pair(j.items[i]).Some? && FromJson(Pair(j.items[i]).value.0, key).Some?
              && FromJson(Pair(j.items[i]).value.1, value).Some?)
      then Some(PairsV(seq(|j.items|, i requires 0 <= i < |j.items| =>
                  (FromJson(Pair(j.items[i]).value.0, key).value, FromJson(Pair(j.items[i]).value.1, value).value))))
      else None
    case TupleT(types) =>
      if j.Arr? && |j.items| == |types| && forall i :: 0 <= i < |types| ==> FromJson(j.items[i], types[i]).Some?
      then Some(TupleV(seq(|types|, i requires 0 <= i < |types| => FromJson(j.items[i], types[i]).value)))
      else None
    case RecordT(_, fields) =>
      if j.Obj? && (forall i :: 0 <= i < |fields| ==> FromField(j.fields, fields[i].0, fields[i].1).Some?)
         && (forall k :: k in j.fields ==> k in NamesOf(fields))
      then Some(RecordV(seq(|fields|, i requires 0 <= i < |fields| =>
                            (fields[i].0, FromField(j.fields, fields[i].0, fields[i].1).value))))
      else None
    case OptionT(inner) =>
      if j.Null? then Some(OptionV(None)) else
      (match FromJson(j, inner)
       case None => None
       case Some(v) => Some(OptionV(Some(v))))
    case VariantT(cases) =>
      if !j.Obj? || "type" !in j.fields || !j.fields["type"].Str? then None else
      var tag := j.fields["type"].s;
      (match IndexOf(cases, tag)
       case None => None
       case Some(i) =>
         if cases[i].1.None? then Some(VariantV(tag, None)) else
         // The payload is under "value", or all the fields but one named "variant".
         var payload := if "value" in j.fields then j.fields["value"] else Obj(j.fields - {"variant"});
         match FromJson(payload, cases[i].1.value)
         case None => None
         case Some(v) => Some(VariantV(tag, Some(v))))
    case EnumT(names) => if j.Str? && j.s in names then Some(EnumV(j.s)) else None
    case ResultT(ok, err) =>
      if !j.Obj? then None
      else if "ok" in j.fields then FromArm(true, j.fields["ok"], ok)
      else if "error" in j.fields then FromArm(false, j.fields["error"], err)
      else None
    case FlagsT(names) =>
      if j.Arr? && forall i :: 0 <= i < |j.items| ==> j.items[i].Str? && j.items[i].s in names
      then Some(FlagsV(seq(|j.items|, i requires 0 <= i < |j.items| => j.items[i].s)))
      else None
  }

  /** One arm of a result; without a payload type whatever is there is ignored. */
  function FromArm(isOk: bool, j: Value, t: Option<Type>): Option<Val>
    decreases t, 1
  {
    if t.None? then Some(ResultV(isOk, None)) else
    match FromJson(j, t.value)
    case None => None
    case Some(v) => Some(ResultV(isOk, Some(v)))
  }

  /** Text in decimal is the integer it shows; a minus sign is refused where there is no sign. */
  lemma DecimalParsed(n: int, signed: bool)
    ensures ParseInt(Decimal(n), signed) == if n < 0 && !signed then None else Some(n)
  {
    hide DigitsValue, Digits;
    var digits := Digits(if n < 0 then -n else n);
    DigitsRead(if n < 0 then -n else n);
    assert IsDigit(digits[0]);
    if n < 0 {
      assert Decimal(n)[0] == '-' && Decimal(n)[1..] == digits;
    }
  }

  /** An integer given as text in decimal, as on a command line, is read if and only if it is in the type's range. */
  lemma DecimalRead(signed: bool, bits: nat, n: int)
    ensures FromJson(Str(Decimal(n)), IntT(signed, bits)) == if InRange(signed, bits, n) then
              Some(IntV(signed, bits, n)) else None
  {
    hide ParseInt, Decimal;
    DecimalParsed(n, signed);
  }

  // ---- Round trip ---------------------------------------------------------------------------------------------------

  /** Whether a value comes back. */
  predicate Returns(v: Val, t: Type) {
    FromJson(ToJson(v), t) == Some(v)
  }

  lemma ResultReads(v: Val, t: Type)
    requires t.ResultT? && v.ResultV? && (v.payload.Some? <==> (if v.isOk then t.ok else t.err).Some?)
    ensures Returns(v, t) <==> (v.payload.Some? ==> Returns(v.payload.value, (if v.isOk then t.ok else t.err).value))
  {
    var j := ToJson(v);
    if v.isOk {
      assert FromJson(j, t) == FromArm(true, j.fields["ok"], t.ok);
    } else {
      assert FromJson(j, t) == FromArm(false, j.fields["error"], t.err);
    }
  }

  lemma IntReturns(signed: bool, bits: nat, n: int)
    requires WellFormed(IntT(signed, bits)) && InRange(signed, bits, n)
    ensures FromNumber(Int(n), signed, bits) == Some(IntV(signed, bits, n))
  {
    var m := Power(bits);
    if n < 0 {
      assert n % m == (n + m) % m == n + m;
    } else {
      assert n % m == n;
    }
  }

  lemma FlagsReturn(v: Val, t: Type)
    requires t.FlagsT? && HasType(v, t)
    ensures Returns(v, t)
  {
    assert FromJson(ToJson(v), t).value.names == v.names;
  }

  lemma ListReturnsByItems(v: Val, t: Type)
    requires t.ListT? && v.ListV?
    ensures Returns(v, t) <==> forall i :: 0 <= i < |v.items| ==> Returns(v.items[i], t.elem)
  {
    var j := ToJson(v);
    if Returns(v, t) {
      forall i | 0 <= i < |v.items|
        ensures Returns(v.items[i], t.elem)
      {
        assert FromJson(j.items[i], t.elem).value == FromJson(j, t).value.items[i];
      }
    }
    if forall i :: 0 <= i < |v.items| ==> Returns(v.items[i], t.elem) {
      assert forall i :: 0 <= i < |j.items| ==>
        Returns(v.items[i], t.elem) && FromJson(j.items[i], t.elem) == Some(v.items[i]);
      assert FromJson(j, t).value.items == v.items;
    }
  }

  lemma TupleReturnsByItems(v: Val, t: Type)
    requires t.TupleT? && v.TupleV? && |v.items| == |t.types|
    ensures Returns(v, t) <==> forall i :: 0 <= i < |v.items| ==> Returns(v.items[i], t.types[i])
  {
    var j := ToJson(v);
    if Returns(v, t) {
      forall i | 0 <= i < |v.items|
        ensures Returns(v.items[i], t.types[i])
      {
        assert FromJson(j.items[i], t.types[i]).value == FromJson(j, t).value.items[i];
      }
    }
    if forall i :: 0 <= i < |v.items| ==> Returns(v.items[i], t.types[i]) {
      assert forall i :: 0 <= i < |j.items| ==>
        Returns(v.items[i], t.types[i]) && FromJson(j.items[i], t.types[i]) == Some(v.items[i]);
      assert FromJson(j, t).value.items == v.items;
    }
  }

  lemma DictReturnsByValues(v: Val, t: Type)
    requires t.MapT? && t.key.StringT? && v.DictV?
    ensures Returns(v, t) <==> forall k :: k in v.dict ==> Returns(v.dict[k], t.value)
  {
    var j := ToJson(v);
    if Returns(v, t) {
      forall k | k in v.dict
        ensures Returns(v.dict[k], t.value)
      {
        assert FromJson(j.fields[k], t.value).value == FromJson(j, t).value.dict[k];
      }
    }
    if forall k :: k in v.dict ==> Returns(v.dict[k], t.value) {
      assert forall k :: k in j.fields ==>
        Returns(v.dict[k], t.value) && FromJson(j.fields[k], t.value) == Some(v.dict[k]);
      assert FromJson(j, t).value.dict == v.dict;
    }
  }

  lemma PairsReturnByEntries(v: Val, t: Type)
    requires t.MapT? && !t.key.StringT? && v.PairsV? && HasType(v, t) && v.pairs != []
    ensures Returns(v, t) <==> forall i :: 0 <= i < |v.pairs| ==>
              Returns(v.pairs[i].0, t.key) && Returns(v.pairs[i].1, t.value)
  {
    var j := ToJson(v);
    PairsRender(v, t);
    hide ToJson, HasType;
    if Returns(v, t) {
      var pairs := FromJson(j, t).value.pairs;
      forall i | 0 <= i < |v.pairs|
        ensures Returns(v.pairs[i].0, t.key) && Returns(v.pairs[i].1, t.value)
      {
        assert pairs[i] == v.pairs[i];
      }
    }
    if forall i :: 0 <= i < |v.pairs| ==> Returns(v.pairs[i].0, t.key) && Returns(v.pairs[i].1, t.value) {
      forall i | 0 <= i < |v.pairs|
        ensures FromJson(Pair(j.items[i]).value.0, t.key) == Some(v.pairs[i].0)
        ensures FromJson(Pair(j.items[i]).value.1, t.value) == Some(v.pairs[i].1)
      {
        assert Returns(v.pairs[i].0, t.key) && Returns(v.pairs[i].1, t.value);
      }
      PairsRead(v, t);
    }
  }

  lemma PairsRead(v: Val, t: Type)
    requires t.MapT? && v.PairsV? && ToJson(v).Arr? && |ToJson(v).items| == |v.pairs|
    requires forall i :: 0 <= i < |v.pairs| ==> Pair(ToJson(v).items[i]).Some?
    requires forall i :: 0 <= i < |v.pairs| ==> FromJson(Pair(ToJson(v).items[i]).value.0, t.key) == Some(v.pairs[i].0)
    requires forall i :: 0 <= i < |v.pairs| ==>
              FromJson(Pair(ToJson(v).items[i]).value.1, t.value) == Some(v.pairs[i].1)
    ensures Returns(v, t)
  {
    hide ToJson, Pair;
    assert FromJson(ToJson(v), t).value.pairs == v.pairs;
  }

  lemma PairsRender(v: Val, t: Type)
    requires t.MapT? && !t.key.StringT? && v.PairsV? && HasType(v, t) && v.pairs != []
    ensures ToJson(v).Arr? && |ToJson(v).items| == |v.pairs|
    ensures forall i :: 0 <= i < |v.pairs| ==>
              Pair(ToJson(v).items[i]) == Some((ToJson(v.pairs[i].0), ToJson(v.pairs[i].1)))
  {
    NotStrings(v, t);
  }

  /** Keys of a type other than string are not strings. */
  lemma NotStrings(v: Val, t: Type)
    requires t.MapT? && !t.key.StringT? && v.PairsV? && HasType(v, t) && v.pairs != []
    ensures !v.pairs[0].0.StringV?
  {
    assert HasType(v.pairs[0].0, t.key);
  }

  /** A record's fields render under their own names. */
  lemma RecordFields(v: Val, t: Type, i: nat)
    requires t.RecordT? && Distinct(NamesOf(t.fields)) && HasType(v, t) && i < |v.fields|
    ensures ToJson(v).Obj? && v.fields[i].0 in ToJson(v).fields
              && ToJson(v).fields[v.fields[i].0] == ToJson(v.fields[i].1)
    ensures NamesOf(v.fields) == NamesOf(t.fields) && ToJson(v).fields.Keys == set n | n in NamesOf(t.fields)
  {
    var names := NamesOf(v.fields);
    assert names == NamesOf(t.fields);
    assert names[i] == v.fields[i].0;
    assert IndexOf(v.fields, v.fields[i].0).Some?;
  }

  lemma RecordReturnsByFields(v: Val, t: Type)
    requires t.RecordT? && Distinct(NamesOf(t.fields)) && HasType(v, t)
    ensures Returns(v, t) <==> forall i :: 0 <= i < |v.fields| ==> Returns(v.fields[i].1, t.fields[i].1)
  {
    var j := ToJson(v);
    NamesAlike(v, t);
    forall i | 0 <= i < |t.fields|
      ensures FromField(j.fields, t.fields[i].0, t.fields[i].1) == FromJson(ToJson(v.fields[i].1), t.fields[i].1)
    {
      RecordFields(v, t, i);
    }
    hide ToJson, HasType, FromField;
    if Returns(v, t) {
      var fields := FromJson(j, t).value.fields;
      forall i | 0 <= i < |v.fields|
        ensures Returns(v.fields[i].1, t.fields[i].1)
      {
        assert fields[i] == v.fields[i];
      }
    }
    if forall i :: 0 <= i < |v.fields| ==> Returns(v.fields[i].1, t.fields[i].1) {
      forall i | 0 <= i < |t.fields|
        ensures FromField(j.fields, t.fields[i].0, t.fields[i].1) == Some(v.fields[i].1)
      {
        assert Returns(v.fields[i].1, t.fields[i].1);
      }
      RecordRead(v, t);
    }
  }

  lemma RecordRead(v: Val, t: Type)
    requires t.RecordT? && v.RecordV? && |v.fields| == |t.fields| && ToJson(v).Obj?
    requires forall i :: 0 <= i < |v.fields| ==> v.fields[i].0 == t.fields[i].0
    requires forall k :: k in ToJson(v).fields ==> k in NamesOf(t.fields)
    requires forall i :: 0 <= i < |t.fields| ==>
              FromField(ToJson(v).fields, t.fields[i].0, t.fields[i].1) == Some(v.fields[i].1)
    ensures Returns(v, t)
  {
    hide ToJson, FromField;
    assert FromJson(ToJson(v), t).value.fields == v.fields;
  }

  lemma NamesAlike(v: Val, t: Type)
    requires t.RecordT? && Distinct(NamesOf(t.fields)) && HasType(v, t)
    ensures |v.fields| == |t.fields| && forall i :: 0 <= i < |v.fields| ==> v.fields[i].0 == t.fields[i].0
    ensures ToJson(v).Obj? && forall k :: k in ToJson(v).fields ==> k in NamesOf(t.fields)
  {
    assert NamesOf(v.fields) == NamesOf(t.fields);
  }
}
