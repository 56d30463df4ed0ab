/** Encoding arguments as bytes: what result decoding undoes. */
module ParamEncoding {
  import opened Json
  import opened Templates
  import opened Wrappers

  type Octet = n: nat | n < 256

  /** How a value is written as JSON text, and text as UTF-8. */
  datatype Encoder = Encoder(json: Value -> seq<Octet>, utf8: string -> seq<Octet>)

  /** Bytes as a JSON list of numbers. */
  function Octets(bytes: seq<Octet>): Value {
    Arr(seq(|bytes|, i requires 0 <= i < |bytes| => Num(Int(bytes[i]))))
  }

  /** The first parameter of a name. */
  function Position(names: seq<string>, name: string): (r: Option<nat>)
    ensures r.Some? ==> r.value < |names| && names[r.value] == name && name !in names[..r.value]
    ensures r.None? <==> name !in names
  {
    if names == [] then None
    else if names[0] == name then Some(0)
    else match Position(names[1..], name)
      case None => None
      case Some(i) => assert names[..i + 1] == [names[0]] + names[1..][..i]; Some(i + 1)
  }

  /** The content type of a parameter: fixed, or read from the assembled arguments, the path's first key naming one. */
  function ArgContentType(args: seq<Value>, names: seq<string>, spec: ContentTypeSpec): Option<string>
    requires |args| == |names|
  {
    match spec
    case Fixed(ct) => Some(ct)
    case From(path) =>
      if path == [] || !path[0].Key? then None else
      match Position(names, path[0].key)
      case None => None
      case Some(i) => match Lookup(args[i], path[1..]) case Some(Str(ct)) => Some(ct) case _ => None
  }

  function EncodedValue(enc: Encoder, v: Value, contentType: string): Option<Value> {
    if contentType == "application/json" then Some(Octets(enc.json(v)))
    else if contentType == "text/plain" && v.Str? then Some(Octets(enc.utf8(v.s)))
    else None
  }

  function EncodedArg(enc: Encoder, args: seq<Value>, names: seq<string>, name: string,
                      spec: ContentTypeSpec): Option<Value>
    requires |args| == |names|
  {
    match ArgContentType(args, names, spec)
    case None => None
    case Some(ct) =>
      match Position(names, name)
      case None => None
      case Some(i) => EncodedValue(enc, args[i], ct)
  }

  predicate AllEncoded(enc: Encoder, args: seq<Value>, names: seq<string>, encoding: map<string, ContentTypeSpec>)
    requires |args| == |names|
  {
    forall name :: name in encoding ==> EncodedArg(enc, args, names, name, encoding[name]).Some?
  }

  /** The arguments with those named in `done` encoded, each by a content type settled on the original arguments. */
  function EncodedSome(enc: Encoder, args: seq<Value>, names: seq<string>, encoding: map<string, ContentTypeSpec>,
                       done: set<string>): (r: seq<Value>)
    requires |args| == |names|
    ensures |r| == |args|
  {
    seq(|args|, i requires 0 <= i < |args| =>
      if names[i] in done && names[i] in encoding && Position(names, names[i]) == Some(i)
         && EncodedArg(enc, args, names, names[i], encoding[names[i]]).Some?
      then EncodedArg(enc, args, names, names[i], encoding[names[i]]).value
      else args[i])
  }

  /** All named arguments encoded, or nothing. */
  function Encoded(enc: Encoder, args: seq<Value>, names: seq<string>,
                   encoding: map<string, ContentTypeSpec>): (r: Option<seq<Value>>)
    requires |args| == |names|
    ensures r.Some? ==> |r.value| == |args|
  {
    if AllEncoded(enc, args, names, encoding) then Some(EncodedSome(enc, args, names, encoding, encoding.Keys))
        else None
  }

  /** One argument more. */
  lemma EncodeNext(enc: Encoder, args: seq<Value>, names: seq<string>, encoding: map<string, ContentTypeSpec>,
                   done: set<string>, k: string, ct: string)
    requires |args| == |names| && k in encoding && k !in done && ArgContentType(args, names, encoding[k]) == Some(ct)
    ensures var at := Position(names, k);
            var so := EncodedSome(enc, args, names, encoding, done);
            var arg := EncodedArg(enc, args, names, k, encoding[k]);
            && (at.Some? ==> arg == EncodedValue(enc, so[at.value], ct))
            && (arg.Some? ==>
                 at.Some? && EncodedSome(enc, args, names, encoding, done + {k}) == so[at.value := arg.value])
  {
    hide ArgContentType, EncodedValue;
  }

  /** The content type of each named argument, if all have one that is supported. */
  method ResolveContentTypes(args: seq<Value>, names: seq<string>, encoding: map<string, ContentTypeSpec>)
    returns (r: Option<map<string, string>>)
    requires |args| == |names|
    ensures r.Some? ==> r.value.Keys == encoding.Keys
    ensures r.Some? ==> forall k :: k in encoding ==> ArgContentType(args, names, encoding[k]) == Some(r.value[k])
    ensures r.None? ==> exists k ::
              k in encoding
              && (match ArgContentType(args, names, encoding[k]) case None => true case Some(ct) => !Supported(ct))
  {
    hide ArgContentType, Supported;
    var resolved: map<string, string> := map[];
    var rest := encoding.Keys;
    while rest != {}
      invariant rest <= encoding.Keys && resolved.Keys == encoding.Keys - rest
      invariant forall k :: k in resolved ==> ArgContentType(args, names, encoding[k]) == Some(resolved[k])
      decreases |rest|
    {
      var k :| k in rest;
      var ct := ArgContentType(args, names, encoding[k]);
      if ct.None? || !Supported(ct.value) {
        return None;
      }
      resolved := resolved[k := ct.value];
      rest := rest - {k};
    }
    r := Some(resolved);
  }

  /** Encodes in place; after a failure the arguments are of no further use. */
  method ApplyParamEncoding(enc: Encoder, args: array<Value>, names: seq<string>,
                            encoding: map<string, ContentTypeSpec>) returns (ok: bool)
    requires args.Length == |names|
    modifies args
    ensures ok <==> Encoded(enc, old(args[..]), names, encoding).Some?
    ensures ok ==> args[..] == Encoded(enc, old(args[..]), names, encoding).value
  {
    hide EncodedSome, ArgContentType, EncodedValue, EncodedArg, Supported;
    ghost var was := args[..];
    // Every content type is settled before any argument is replaced.
    var resolved := ResolveContentTypes(args[..], names, encoding);
    if resolved.None? {
      Unsupported(enc, was, names, encoding);
      return false;
    }
    var rest := encoding.Keys;
    NoneEncoded(enc, was, names, encoding);
    while rest != {}
      invariant rest <= encoding.Keys
      invariant forall k :: k in encoding && k !in rest ==> EncodedArg(enc, was, names, k, encoding[k]).Some?
      invariant args[..] == EncodedSome(enc, was, names, encoding, encoding.Keys - rest)
      decreases |rest|
    {
      var k :| k in rest;
      ghost var done := encoding.Keys - rest;
      EncodeNext(enc, was, names, encoding, done, k, resolved.value[k]);
      var at := Position(names, k);
      if at.None? {
        return false;
      }
      var encoded := EncodedValue(enc, args[..][at.value], resolved.value[k]);
      if encoded.None? {
        return false;
      }
      args[at.value] := encoded.value;
      assert encoding.Keys - (rest - {k}) == done + {k};
      rest := rest - {k};
    }
    assert encoding.Keys - rest == encoding.Keys;
    ok := true;
  }

  lemma Unsupported(enc: Encoder, args: seq<Value>, names: seq<string>, encoding: map<string, ContentTypeSpec>)
    requires |args| == |names|
    requires exists k :: k in encoding
              && (match ArgContentType(args, names, encoding[k]) case None => true case Some(ct) => !Supported(ct))
    ensures !AllEncoded(enc, args, names, encoding)
  {
    hide ArgContentType;
    var k :| k in encoding && (match ArgContentType(args, names, encoding[k]) case None => true
                               case Some(ct) => !Supported(ct));
    assert EncodedArg(enc, args, names, k, encoding[k]).None?;
  }

  lemma NoneEncoded(enc: Encoder, args: seq<Value>, names: seq<string>, encoding: map<string, ContentTypeSpec>)
    requires |args| == |names|
    ensures EncodedSome(enc, args, names, encoding, {}) == args
    ensures encoding.Keys - encoding.Keys == {}
  {
  }

  // ---- Decoding undoes encoding ---------------------------------------------------------------------------------

  /** The byte codecs of the two directions agree. */
  ghost predicate Inverse(enc: Encoder, codec: Codec) {
    (forall v :: codec.json(enc.json(v)) == Some(v)) && (forall s :: codec.utf8(enc.utf8(s)) == Some(s))
  }

  lemma {:induction false} OctetsRead(bytes: seq<Octet>)
    ensures Bytes(Octets(bytes).items) == Some(bytes)
  {
    var items := Octets(bytes).items;
    assert forall i :: 0 <= i < |items| ==> IsByte(items[i]);
    var r := Bytes(items).value;
    assert forall i :: 0 <= i < |bytes| ==> items[i] == Num(Int(r[i]));
    assert r == bytes;
  }

  /** What is encoded by a content type is decoded by it. */
  lemma DecodesBack(enc: Encoder, codec: Codec, v: Value, contentType: string)
    requires Inverse(enc, codec) && EncodedValue(enc, v, contentType).Some?
    ensures var e := EncodedValue(enc, v, contentType).value;
            Supported(contentType) && e.Arr? && Bytes(e.items).Some?
              && DecodeBytes(codec, Bytes(e.items).value, contentType) == Some(v)
  {
    OctetsRead(if contentType == "application/json" then enc.json(v) else enc.utf8(v.s));
  }

  /** The arguments under their parameters' names. */
  function AsObject(args: seq<Value>, names: seq<string>): Value
    requires |args| == |names|
  {
    Obj(map name | name in names :: args[Position(names, name).value])
  }

  /** A content type that is not fixed is the text at its path into the arguments, taken as one object. */
  lemma ContentTypeRead(args: seq<Value>, names: seq<string>, spec: ContentTypeSpec)
    requires |args| == |names|
    ensures spec.Fixed? ==> ArgContentType(args, names, spec) == Some(spec.contentType)
    ensures spec.From? ==>
              forall ct :: ArgContentType(args, names, spec) == Some(ct) <==>
                           Lookup(AsObject(args, names), spec.path) == Some(Str(ct))
  {
    if spec.From? && spec.path != [] && spec.path[0].Key? {
      var name := spec.path[0].key;
      assert name in names ==> AsObject(args, names).fields[name] == args[Position(names, name).value];
    }
  }

  /**
   * Each named argument of distinct parameters is replaced by its encoding, by the content type its own entry leads to
   * in the arguments as they were; the others stay. It fails just where a name is no parameter's or an encoding fails.
   */
  lemma EncodedExactly(enc: Encoder, args: seq<Value>, names: seq<string>, encoding: map<string, ContentTypeSpec>)
    requires |args| == |names| && forall i, j :: 0 <= i < j < |names| ==> names[i] != names[j]
    ensures Encoded(enc, args, names, encoding).Some? <==>
              && (forall name :: name in encoding ==> name in names)
              && (forall i :: 0 <= i < |names| && names[i] in encoding ==>
                    var ct := ArgContentType(args, names, encoding[names[i]]);
                    ct.Some? && EncodedValue(enc, args[i], ct.value).Some?)
    ensures Encoded(enc, args, names, encoding).Some? ==>
              forall i :: 0 <= i < |names| ==>
                Encoded(enc, args, names, encoding).value[i] ==
                if names[i] in encoding then
                  EncodedValue(enc, args[i], ArgContentType(args, names, encoding[names[i]]).value).value
                else args[i]
  {
    hide ArgContentType, EncodedValue;
    forall i | 0 <= i < |names|
      ensures Position(names, names[i]) == Some(i)
    {
      var k := Position(names, names[i]).value;
      assert names[k] == names[i];
    }
  }

  /**
   * Decoding undoes encoding, for a whole object: fields that hold the encodings of some values, by content types that
   * are fixed or stand in the object as it is, are replaced by those values, and the others stay.
   */
  lemma DecodingUndoes(enc: Encoder, codec: Codec, v: Value, decoding: map<string, ContentTypeSpec>,
                       plain: map<string, Value>, types: map<string, string>)
    requires Inverse(enc, codec) && v.Obj? && plain.Keys == types.Keys == decoding.Keys
    requires forall k :: k in decoding ==>
               && k in v.fields && EncodedValue(enc, plain[k], types[k]) == Some(v.fields[k])
               && (decoding[k].Fixed? ==> decoding[k].contentType == types[k])
               && (decoding[k].From? ==> Lookup(v, decoding[k].path) == Some(Str(types[k])))
    ensures Decoded(codec, v, decoding) == Some(Obj(v.fields + plain))
  {
    hide EncodedValue, Supported, Bytes, DecodeBytes, Lookup, Inverse, DecodedField;
    forall k | k in decoding
      ensures DecodedField(codec, v, k, decoding[k]) == Some(plain[k])
    {
      FieldUndone(enc, codec, v, k, decoding[k], plain[k], types[k]);
    }
    assert Decoded(codec, v, decoding).value.fields == v.fields + plain;
  }

  lemma FieldUndone(enc: Encoder, codec: Codec, v: Value, k: string, spec: ContentTypeSpec, plain: Value, ct: string)
    requires Inverse(enc, codec) && v.Obj? && k in v.fields && EncodedValue(enc, plain, ct) == Some(v.fields[k])
    requires spec.Fixed? ==> spec.contentType == ct
    requires spec.From? ==> Lookup(v, spec.path) == Some(Str(ct))
    ensures DecodedField(codec, v, k, spec) == Some(plain)
  {
    hide EncodedValue, Supported, Bytes, DecodeBytes, Lookup, Inverse;
    DecodesBack(enc, codec, plain, ct);
  }

  /** A value of the advertised shape can be encoded: text as text, anything as JSON. */
  lemma FixedEncodes(enc: Encoder, v: Value, contentType: string)
    requires Supported(contentType) && Conforms(v, SchemaForEncoded(Fixed(contentType)))
    ensures EncodedValue(enc, v, contentType).Some?
  {
  }
}
