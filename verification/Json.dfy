/** JSON values, the schema keywords the system emits, and what it means to conform to them. */
module Json {
  import opened Wrappers

  /** An integer or a finite fraction; the two are kept apart as the JSON library keeps them. */
  datatype Number = Int(i: int) | Fraction(r: real)

  datatype Value =
    | Null
    | Bool(b: bool)
    | Num(n: Number)
    | Str(s: string)
    | Arr(items: seq<Value>)
    | Obj(fields: map<string, Value>)

  function Quantity(n: Number): real {
    match n
    case Int(i) => i as real
    case Fraction(r) => r
  }

  // ---- Schemas ------------------------------------------------------------------------------------------------

  datatype Kind = NullKind | BooleanKind | NumberKind | StringKind | ArrayKind | ObjectKind

  datatype Properties = NoProperties | Properties(of: map<string, Schema>)

  /** What `additionalProperties` says: nothing, false, or a schema. */
  datatype Additional = Open | Closed | Each(schema: Schema)

  datatype Items = NoItems | Items(schema: Schema)

  datatype Prefix = NoPrefix | Prefix(of: seq<Schema>)

  datatype OneOf = NoOneOf | OneOf(arms: seq<Schema>)

  /** A schema; every keyword may be absent. `required` is read as a set. */
  datatype Schema = Schema(
    kind: Option<Kind>,
    properties: Properties,
    required: set<string>,
    additional: Additional,
    items: Items,
    prefix: Prefix,
    minItems: nat,
    maxItems: Option<nat>,
    uniqueItems: bool,
    oneOf: OneOf,
    constant: Option<Value>,
    choices: Option<set<string>>,
    minimum: Option<int>,
    maximum: Option<int>,
    minLength: nat,
    maxLength: Option<nat>,
    title: Option<string>)

  /** The schema without keywords. */
  const ANY := Schema(None, NoProperties, {}, Open, NoItems, NoPrefix, 0, None, false, NoOneOf, None, None, None,
                      None, 0, None, None)

  function Typed(kind: Kind): Schema {
    ANY.(kind := Some(kind))
  }

  /** An object with exactly these properties, all allowed and some required. */
  function ClosedObject(properties: map<string, Schema>, required: set<string>): Schema {
    Typed(ObjectKind).(properties := Properties(properties), required := required, additional := Closed)
  }

  /** An array with one schema for each position. */
  function TupleOf(schemas: seq<Schema>): Schema {
    Typed(ArrayKind).(prefix := Prefix(schemas), minItems := |schemas|, maxItems := Some(|schemas|))
  }

  function ListOf(schema: Schema): Schema {
    Typed(ArrayKind).(items := Items(schema))
  }

  function KindOf(v: Value): Kind {
    match v
    case Null => NullKind
    case Bool(_) => BooleanKind
    case Num(_) => NumberKind
    case Str(_) => StringKind
    case Arr(_) => ArrayKind
    case Obj(_) => ObjectKind
  }

  // ---- Conformance (JSON Schema draft 2020-12) ------------------------------------------------------------------

  /** The keywords that do not descend into the value. */
  predicate ConformsHere(v: Value, s: Schema) {
    && (s.kind.Some? ==> KindOf(v) == s.kind.value)
    && (s.constant.Some? ==> v == s.constant.value)
    && (s.choices.Some? ==> v.Str? && v.s in s.choices.value)
    && (v.Obj? ==> s.required <= v.fields.Keys)
    && (v.Arr? ==> s.minItems <= |v.items| && (s.maxItems.Some? ==> |v.items| <= s.maxItems.value))
    && (v.Arr? && s.uniqueItems ==> forall i, j :: 0 <= i < j < |v.items| ==> v.items[i] != v.items[j])
    && (v.Num? && s.minimum.Some? ==> s.minimum.value as real <= Quantity(v.n))
    && (v.Num? && s.maximum.Some? ==> Quantity(v.n) <= s.maximum.value as real)
    && (v.Str? ==> s.minLength <= |v.s| && (s.maxLength.Some? ==> |v.s| <= s.maxLength.value))
  }

  /** What one field of an object must conform to. */
  predicate FieldConforms(k: string, v: Value, s: Schema)
    decreases s, 0
  {
    if s.properties.Properties? && k in s.properties.of then Conforms(v, s.properties.of[k])
    else match s.additional
      case Open => true
      case Closed => false
      case Each(each) => Conforms(v, each)
  }

  /** What one position of an array must conform to. */
  predicate ItemConforms(i: nat, v: Value, s: Schema)
    decreases s, 0
  {
    if s.prefix.Prefix? && i < |s.prefix.of| then Conforms(v, s.prefix.of[i])
    else s.items.Items? ==> Conforms(v, s.items.schema)
  }

  /** Exactly one arm accepts. */
  predicate ExactlyOne(v: Value, s: Schema)
    decreases s, 0
  {
    s.oneOf.OneOf? ==>
      exists i :: 0 <= i < |s.oneOf.arms| && Conforms(v, s.oneOf.arms[i])
                  && forall j :: 0 <= j < |s.oneOf.arms| && j != i ==> !Conforms(v, s.oneOf.arms[j])
  }

  predicate Conforms(v: Value, s: Schema)
    decreases s, 1
  {
    && ConformsHere(v, s)
    && (v.Obj? ==> forall k :: k in v.fields ==> FieldConforms(k, v.fields[k], s))
    && (v.Arr? ==> forall i :: 0 <= i < |v.items| ==> ItemConforms(i, v.items[i], s))
    && ExactlyOne(v, s)
  }

  /** A closed object schema accepts the objects that have the required keys, and at every key a value that fits. */
  lemma ObjectAccepts(v: Value, properties: map<string, Schema>, required: set<string>, title: Option<string>)
    ensures Conforms(v, ClosedObject(properties, required).(title := title)) <==>
              && v.Obj? && required <= v.fields.Keys
              && forall k :: k in v.fields ==> k in properties && Conforms(v.fields[k], properties[k])
  {
    var s := ClosedObject(properties, required).(title := title);
    assert v.Obj? ==> forall k :: k in v.fields ==>
      (FieldConforms(k, v.fields[k], s) <==> k in properties && Conforms(v.fields[k], properties[k]));
    assert ExactlyOne(v, s);
  }

  // ---- Paths into values ----------------------------------------------------------------------------------------

  datatype PathSegment = Key(key: string) | Index(index: nat)

  /** One step of a lookup: a key of an object, or a position of an array. */
  function Step(v: Value, seg: PathSegment): Option<Value> {
    match seg
    case Key(k) => if v.Obj? && k in v.fields then Some(v.fields[k]) else None
    case Index(i) => if v.Arr? && i < |v.items| then Some(v.items[i]) else None
  }

  function Lookup(v: Value, path: seq<PathSegment>): Option<Value> {
    if path == [] then Some(v) else
    match Step(v, path[0])
    case None => None
    case Some(next) => Lookup(next, path[1..])
  }
}
