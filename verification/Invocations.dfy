/** From the advertised schema to the call: a body that passes it gives arguments of the declared types. */
module Invocations {
  import opened Json
  import opened Templates
  import opened Conversion
  import opened MergedPayloads
  import opened EmittedSchema
  import opened AdmittedValues
  import opened InputSchema
  import opened Arguments
  import opened ParamEncoding
  import opened Wrappers

  /** What the host knows of a parameter: its name, whether it may be left out, and its type's schema. */
  function ParamsOf(fields: seq<(string, Type)>): (r: seq<Param>)
    ensures |r| == |fields|
  {
    seq(|fields|, i requires 0 <= i < |fields| => Param(fields[i].0, fields[i].1.OptionT?, SchemaOf(fields[i].1)))
  }

  predicate ParamsWellFormed(fields: seq<(string, Type)>) {
    WellFormed(RecordT(None, fields))
  }

  const BYTES := ListT(IntT(false, 8))

  /** Only byte arrays are encoded. */
  predicate EncodesBytes(fields: seq<(string, Type)>, encoding: map<string, ContentTypeSpec>) {
    forall i :: 0 <= i < |fields| && fields[i].0 in encoding ==> fields[i].1 == BYTES
  }

  lemma DistinctParams(fields: seq<(string, Type)>)
    requires ParamsWellFormed(fields)
    ensures Distinct(NamesOf(fields)) && ParamNames(ParamsOf(fields)) == NamesOf(fields)
    ensures forall j, k :: 0 <= j < k < |fields| ==> ParamsOf(fields)[j].name != ParamsOf(fields)[k].name
  {
    assert forall j :: 0 <= j < |fields| ==> NamesOf(fields)[j] == ParamsOf(fields)[j].name;
  }

  lemma FieldWellFormed(fields: seq<(string, Type)>, i: nat)
    requires ParamsWellFormed(fields) && i < |fields|
    ensures WellFormed(fields[i].1)
  {
  }

  lemma DistinctPosition(names: seq<string>, i: nat)
    requires Distinct(names) && i < |names|
    ensures Position(names, names[i]) == Some(i)
  {
  }

  /** Encoded bytes are read as the list of those bytes. */
  lemma OctetsConvert(bytes: seq<Octet>)
    ensures FromJson(Octets(bytes), BYTES) ==
              Some(ListV(seq(|bytes|, i requires 0 <= i < |bytes| => IntV(false, 8, bytes[i]))))
  {
    var items := Octets(bytes).items;
    forall i | 0 <= i < |items|
      ensures FromJson(items[i], IntT(false, 8)) == Some(IntV(false, 8, bytes[i]))
    {
      IntReturns(false, 8, bytes[i]);
    }
    hide FromNumber, InRange;
    assert FromJson(Octets(bytes), BYTES).value.items ==
      seq(|bytes|, i requires 0 <= i < |bytes| => IntV(false, 8, bytes[i]));
  }

  /** What the function receives for a parameter, from the value assembled for it. */
  ghost predicate Received(enc: Encoder, assembled: Value, final: Value, t: Type, encoded: bool) {
    if encoded then
      exists ct :: Supported(ct) && EncodedValue(enc, assembled, ct) == Some(final) && FromJson(final, t).Some?
    else final == assembled && if assembled == Null && t.OptionT? then FromJson(final, t) == Some(OptionV(None))
      else Admits(final, t)
  }

  /** The last stages, one parameter at a time. */
  lemma Finishes(enc: Encoder, render: Value -> string, fields: seq<(string, Type)>,
                 encoding: map<string, ContentTypeSpec>, args: seq<Value>, i: nat)
    requires ParamsWellFormed(fields) && EncodesBytes(fields, encoding) && |args| == |fields| && i < |fields|
    requires fields[i].0 !in encoding ==>
              Conforms(args[i], SchemaOf(fields[i].1)) || (args[i] == Null && fields[i].1.OptionT?)
    ensures var r := Finish(enc, render, ParamsOf(fields), encoding, args);
            && (r.Some? <==> AllEncoded(enc, args, NamesOf(fields), encoding))
            && (r.Some? ==> Received(enc, args[i], r.value[i], fields[i].1, fields[i].0 in encoding))
  {
    hide Conforms, SchemaOf, Admits, WellFormed, EncodedArg;
    DistinctParams(fields);
    if AllEncoded(enc, args, NamesOf(fields), encoding) {
      var r := EncodedSome(enc, args, NamesOf(fields), encoding, encoding.Keys)[i];
      FinishesOne(enc, fields, encoding, args, r, i);
      Unchanged(render, fields[i].1, r, args[i], fields[i].0 in encoding);
    }
  }

  lemma FinishesOne(enc: Encoder, fields: seq<(string, Type)>, encoding: map<string, ContentTypeSpec>,
                    args: seq<Value>, r: Value, i: nat)
    requires ParamsWellFormed(fields) && EncodesBytes(fields, encoding) && |args| == |fields| && i < |fields|
    requires fields[i].0 !in encoding ==>
              Conforms(args[i], SchemaOf(fields[i].1)) || (args[i] == Null && fields[i].1.OptionT?)
    requires AllEncoded(enc, args, NamesOf(fields), encoding)
    requires r == EncodedSome(enc, args, NamesOf(fields), encoding, encoding.Keys)[i]
    ensures Received(enc, args[i], r, fields[i].1, fields[i].0 in encoding)
  {
    hide Conforms, SchemaOf, Admits, WellFormed, FromJson, EncodedValue, ArgContentType, Received;
    if fields[i].0 in encoding {
      DistinctParams(fields);
      DistinctPosition(NamesOf(fields), i);
      EncodedReceived(enc, args[i], r, ArgContentType(args, NamesOf(fields), encoding[fields[i].0]).value);
    } else {
      FieldWellFormed(fields, i);
      PlainReceived(enc, r, fields[i].1);
    }
  }

  lemma EncodedReceived(enc: Encoder, assembled: Value, final: Value, ct: string)
    requires EncodedValue(enc, assembled, ct) == Some(final)
    ensures Received(enc, assembled, final, BYTES, true)
  {
    hide FromJson;
    OctetsConvert(if ct == "application/json" then enc.json(assembled) else enc.utf8(assembled.s));
  }

  lemma PlainReceived(enc: Encoder, v: Value, t: Type)
    requires WellFormed(t) && (Conforms(v, SchemaOf(t)) || (v == Null && t.OptionT?))
    ensures Received(enc, v, v, t, false)
  {
    hide Conforms, SchemaOf, Admits, WellFormed;
    if v == Null && t.OptionT? {
      NullRead(t);
    } else {
      Admitted(v, t);
    }
  }

  lemma NullRead(t: Type)
    requires t.OptionT?
    ensures FromJson(Null, t) == Some(OptionV(None))
  {
  }

  /** A value that fits a string parameter is already text, and bytes are not for a string parameter. */
  lemma Unchanged(render: Value -> string, t: Type, v: Value, assembled: Value, encoded: bool)
    requires encoded ==> t == BYTES
    requires !encoded ==> v == assembled && (Conforms(v, SchemaOf(t)) || v == Null)
    ensures forall p: Param :: p.schema == SchemaOf(t) ==> Stringified(render, p, v) == v
  {
  }

  /**
   * Without a mapping, every body that passes the advertised schema is turned into one argument for each parameter:
   * what the body says of it, read as the parameter's type; none for an optional one left out; the bytes of its
   * encoding for an encoded one. It fails only where an integer is not written as a 64-bit one, where a content type
   * read from the arguments does not suit, and where the only parameter is optional and left out.
   */
  lemma UnmappedInvocation(enc: Encoder, render: Value -> string, fields: seq<(string, Type)>,
                           encoding: map<string, ContentTypeSpec>,
                           body: Value, headers: Value, i: nat)
    requires ParamsWellFormed(fields) && EncodesBytes(fields, encoding)
    requires Conforms(body, UnmappedSchema(ParamsOf(fields), encoding)) && i < |fields|
    requires body.Obj? && |fields| == 1 ==> fields[0].0 in body.fields
    ensures var args := AllArguments(enc, render, ParamsOf(fields), None, encoding, body, headers);
            var assembled := Assembled(render, ParamsOf(fields), None, body, headers);
            && body.Obj? && assembled.Some?
            && assembled.value[i] == (if fields[i].0 in body.fields then body.fields[fields[i].0] else Null)
            && (args.Some? <==> AllEncoded(enc, assembled.value, NamesOf(fields), encoding))
            && (args.Some? ==>
                 |args.value| == |fields|
                 && Received(enc, assembled.value[i], args.value[i], fields[i].1, fields[i].0 in encoding))
  {
    hide Conforms, SchemaOf, UnmappedSchema, WellFormed, Received, Finish, Assembled;
    var params := ParamsOf(fields);
    DistinctParams(fields);
    UnmappedArguments(render, params, encoding, body, headers, i);
    UnmappedAccepts(params, encoding, body);
    Finishes(enc, render, fields, encoding, Assembled(render, params, None, body, headers).value, i);
  }

  /** The types an empty object reads as: maps from strings, and records of nothing but options. */
  predicate ReadsEmpty(t: Type) {
    || (t.MapT? && t.key.StringT?)
    || (t.RecordT? && forall i :: 0 <= i < |t.fields| ==> t.fields[i].1.OptionT?)
  }

  lemma {:induction false} EmptyRead(t: Type)
    ensures FromJson(Obj(map[]), t).Some? <==> ReadsEmpty(CoreType(t))
    ensures FromJson(Obj(map[]), t) != Some(OptionV(None))
    decreases t
  {
    if t.OptionT? {
      EmptyRead(t.inner);
    }
  }

  lemma NullIsNone(j: Value, t: Type)
    requires t.OptionT?
    ensures FromJson(j, t) == Some(OptionV(None)) <==> j == Null
  {
  }

  /**
   * Without a mapping, a lone parameter gets the whole body, of whatever shape, unless the body names it; if it is
   * optional, it is none just where the body is null.
   */
  lemma LoneWhole(enc: Encoder, render: Value -> string, field: (string, Type), body: Value, headers: Value)
    requires !(body.Obj? && field.0 in body.fields)
    ensures AllArguments(enc, render, ParamsOf([field]), None, map[], body, headers) ==
              Some([Stringified(render, ParamsOf([field])[0], body)])
    ensures field.1.OptionT? ==>
              && Stringified(render, ParamsOf([field])[0], body) == body
              && (FromJson(body, field.1) == Some(OptionV(None)) <==> body == Null)
  {
    hide EncodedArg, FromJson;
    if field.1.OptionT? {
      NullIsNone(body, field.1);
    }
    var params := ParamsOf([field]);
    assert NameMatch(params[0], Obj(map[field.0 := body])) == Some(body);
    var args := Assembled(render, params, None, body, headers);
    assert args.Some? && args.value == [body];
    assert EncodedSome(enc, [body], ParamNames(params), map[], {}) == [body];
    assert Finish(enc, render, params, map[], [body]).value == [Stringified(render, params[0], body)];
  }

  /**
   * The case left over: without a mapping, a lone optional parameter that the body leaves out gets the body, an empty
   * object. That is never none: it fails to convert unless an empty object stands for a value of the type.
   */
  lemma LoneAbsent(enc: Encoder, render: Value -> string, field: (string, Type), body: Value, headers: Value)
    requires ParamsWellFormed([field]) && body.Obj? && field.0 !in body.fields
    requires Conforms(body, UnmappedSchema(ParamsOf([field]), map[]))
    ensures field.1.OptionT? && body == Obj(map[])
    ensures AllArguments(enc, render, ParamsOf([field]), None, map[], body, headers) == Some([body])
    ensures FromJson(body, field.1).Some? <==> ReadsEmpty(CoreType(field.1))
    ensures FromJson(body, field.1) != Some(OptionV(None))
  {
    hide Conforms, FromJson, ReadsEmpty, CoreType, UnmappedSchema, AllArguments, Stringified;
    var params := ParamsOf([field]);
    UnmappedAccepts(params, map[], body);
    assert params[0].name == field.0;
    assert params[0].optional;
    assert body.fields == map[];
    EmptyRead(field.1);
    LoneWhole(enc, render, field, body, headers);
  }

  /**
   * With a usable mapping, every body that passes the derived schema gives a value for each parameter, and one taken
   * whole from the body is received as what the body says there.
   */
  lemma MappedInvocation(enc: Encoder, render: Value -> string, fields: seq<(string, Type)>,
                         mapping: map<string, Template>,
                         encoding: map<string, ContentTypeSpec>, n: nat, body: Value, headers: Value, i: nat)
    requires ParamsWellFormed(fields) && EncodesBytes(fields, encoding) && Usable(ParamsOf(fields), mapping, encoding)
    requires Within(Leaves(AllContributions(ParamsOf(fields), mapping, encoding)), n)
    requires Conforms(body, Tree(Leaves(AllContributions(ParamsOf(fields), mapping, encoding)), [], n))
    requires i < |fields| && fields[i].0 in mapping && mapping[fields[i].0].PathOnly?
    ensures var args := AllArguments(enc, render, ParamsOf(fields), Some(mapping), encoding, body, headers);
            var assembled := Assembled(render, ParamsOf(fields), Some(mapping), body, headers);
            && assembled.Some? && Substitute(render, mapping[fields[i].0], TemplateSource(body, headers)) ==
                 Some(assembled.value[i])
            && (args.Some? <==> AllEncoded(enc, assembled.value, NamesOf(fields), encoding))
            && (args.Some? ==>
                 |args.value| == |fields|
                 && Received(enc, assembled.value[i], args.value[i], fields[i].1, fields[i].0 in encoding))
  {
    hide Conforms, SchemaOf, WellFormed, Usable, Leaves, Tree, AllContributions, Substitute, Received, Finish,
      Assembled;
    MappedProgress(render, ParamsOf(fields), mapping, encoding, n, body, headers, i);
    Finishes(enc, render, fields, encoding, Assembled(render, ParamsOf(fields), Some(mapping), body, headers).value, i);
  }

  /** Encoding by fixed content types does not fail on values of the advertised shape. */
  lemma FixedNeverFails(enc: Encoder, fields: seq<(string, Type)>, encoding: map<string, ContentTypeSpec>,
                        args: seq<Value>)
    requires |args| == |fields| && ParamsWellFormed(fields)
    requires forall name :: name in encoding ==>
              name in NamesOf(fields) && encoding[name].Fixed? && Supported(encoding[name].contentType)
    requires forall i :: 0 <= i < |fields| && fields[i].0 in encoding ==>
              Conforms(args[i], SchemaForEncoded(encoding[fields[i].0]))
    ensures AllEncoded(enc, args, NamesOf(fields), encoding)
  {
    hide Conforms;
    forall name | name in encoding
      ensures EncodedArg(enc, args, NamesOf(fields), name, encoding[name]).Some?
    {
      var at := Position(NamesOf(fields), name).value;
      assert fields[at].0 == name;
      FixedEncodes(enc, args[at], encoding[name].contentType);
    }
  }
}
