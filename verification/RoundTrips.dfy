/** Component values as JSON and back: which come back. */
module RoundTrips {
  import opened Json
  import opened Conversion
  import opened MergedPayloads
  import opened Wrappers

  /**
   * Numbers are finite, nothing inside an option renders as null, no map without string keys is empty, and every
   * variant's payload is apart from its tag.
   */
  predicate Faithful(v: Val) {
    match v
    case FloatV(_, f) => f.Finite?
    case ListV(items) => forall i :: 0 <= i < |items| ==> Faithful(items[i])
    case DictV(dict) => forall k :: k in dict ==> Faithful(dict[k])
    case PairsV(pairs) => pairs != [] && forall i :: 0 <= i < |pairs| ==> Faithful(pairs[i].0) && Faithful(pairs[i].1)
    case TupleV(items) => forall i :: 0 <= i < |items| ==> Faithful(items[i])
    case RecordV(fields) => forall i :: 0 <= i < |fields| ==> Faithful(fields[i].1)
    case OptionV(opt) => opt.Some? ==> Faithful(opt.value) && ToJson(opt.value) != Null
    case VariantV(tag, payload) => payload.Some? ==> Faithful(payload.value) && Apart(tag, payload.value)
    case ResultV(_, payload) => payload.Some? ==> Faithful(payload.value)
    case _ => true
  }

  /**
   * Converting a well-typed value to JSON and back gives it back exactly when it is faithful.
   */
  lemma {:induction false} RoundTrip(v: Val, t: Type)
    requires WellFormed(t) && HasType(v, t)
    ensures Returns(v, t) <==> Faithful(v)
    decreases t, 1
  {
    match t {
      case ListT(_) => ListReturns(v, t);
      case MapT(_, _) => if v.DictV? { DictReturns(v, t); } else { PairsReturn(v, t); }
      case TupleT(_) => TupleReturns(v, t);
      case RecordT(_, _) => RecordReturns(v, t);
      case OptionT(inner) => if v.opt.Some? { RoundTrip(v.opt.value, inner); }
      case VariantT(_) => VariantReturns(v, t);
      case ResultT(_, _) => ResultReturns(v, t);
      case FlagsT(_) => FlagsReturn(v, t);
      case IntT(signed, bits) => IntReturns(signed, bits, v.n);
      case _ =>
    }
  }

  lemma {:induction false} ResultReturns(v: Val, t: Type)
    requires t.ResultT? && WellFormed(t) && HasType(v, t)
    ensures Returns(v, t) <==> Faithful(v)
    decreases t, 0
  {
    var arm := if v.isOk then t.ok else t.err;
    if v.payload.Some? {
      RoundTrip(v.payload.value, arm.value);
    }
    hide Faithful, HasType, WellFormed;
    ResultReads(v, t);
    assert Faithful(v) <==> (v.payload.Some? ==> Faithful(v.payload.value)) by {
      FaithfulResult(v);
    }
  }

  lemma FaithfulResult(v: Val)
    requires v.ResultV?
    ensures Faithful(v) <==> (v.payload.Some? ==> Faithful(v.payload.value))
  {
  }

  lemma {:induction false} ListReturns(v: Val, t: Type)
    requires t.ListT? && WellFormed(t) && HasType(v, t)
    ensures Returns(v, t) <==> Faithful(v)
    decreases t, 0
  {
    var j := ToJson(v);
    forall i | 0 <= i < |v.items|
      ensures Returns(v.items[i], t.elem) <==> Faithful(v.items[i])
    {
      RoundTrip(v.items[i], t.elem);
    }
    hide Faithful, Returns;
    FaithfulItems(v);
    ListReturnsByItems(v, t);
  }

  lemma FaithfulItems(v: Val)
    requires v.ListV? || v.TupleV?
    ensures Faithful(v) <==> forall i :: 0 <= i < |v.items| ==> Faithful(v.items[i])
  {
  }

  lemma {:induction false} TupleReturns(v: Val, t: Type)
    requires t.TupleT? && WellFormed(t) && HasType(v, t)
    ensures Returns(v, t) <==> Faithful(v)
    decreases t, 0
  {
    forall i | 0 <= i < |v.items|
      ensures Returns(v.items[i], t.types[i]) <==> Faithful(v.items[i])
    {
      RoundTrip(v.items[i], t.types[i]);
    }
    hide Faithful, Returns;
    FaithfulItems(v);
    TupleReturnsByItems(v, t);
  }

  lemma {:induction false} DictReturns(v: Val, t: Type)
    requires t.MapT? && v.DictV? && WellFormed(t) && HasType(v, t)
    ensures Returns(v, t) <==> Faithful(v)
    decreases t, 0
  {
    forall k | k in v.dict
      ensures Returns(v.dict[k], t.value) <==> Faithful(v.dict[k])
    {
      RoundTrip(v.dict[k], t.value);
    }
    hide Returns;
    DictReturnsByValues(v, t);
  }

  lemma {:induction false} PairsReturn(v: Val, t: Type)
    requires t.MapT? && v.PairsV? && WellFormed(t) && HasType(v, t)
    ensures Returns(v, t) <==> Faithful(v)
    decreases t, 0
  {
    if v.pairs == [] {
      assert ToJson(v).Obj?;
    } else {
      forall i | 0 <= i < |v.pairs|
        ensures Returns(v.pairs[i].0, t.key) <==> Faithful(v.pairs[i].0)
        ensures Returns(v.pairs[i].1, t.value) <==> Faithful(v.pairs[i].1)
      {
        RoundTrip(v.pairs[i].0, t.key);
        RoundTrip(v.pairs[i].1, t.value);
      }
      hide Returns;
      PairsReturnByEntries(v, t);
    }
  }

  lemma {:induction false} RecordReturns(v: Val, t: Type)
    requires t.RecordT? && WellFormed(t) && HasType(v, t)
    ensures Returns(v, t) <==> Faithful(v)
    decreases t, 0
  {
    forall i | 0 <= i < |v.fields|
      ensures Returns(v.fields[i].1, t.fields[i].1) <==> Faithful(v.fields[i].1)
    {
      RoundTrip(v.fields[i].1, t.fields[i].1);
    }
    hide Returns;
    RecordReturnsByFields(v, t);
  }

  lemma {:induction false} VariantReturns(v: Val, t: Type)
    requires t.VariantT? && WellFormed(t) && HasType(v, t)
    ensures Returns(v, t) <==> Faithful(v)
    decreases t, 0
  {
    if v.payload.Some? {
      PayloadReturns(v, t);
      RoundTrip(v.payload.value, t.cases[IndexOf(t.cases, v.tag).value].1.value);
      hide Returns, Apart;
    }
  }
}
