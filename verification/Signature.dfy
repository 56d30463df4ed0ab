/** What the interceptor generator knows about one intercepted function. */
module Signature {
  import opened Wrappers
  import opened Memory
  import opened Layouts

  /** A WIT type. */
  datatype Ty =
    | Bool | S8 | S16 | S32 | S64 | U8 | U16 | U32 | U64 | Float32 | Float64 | Char | Text | ErrorContext
    | Id(def: TypeDef)

  datatype TypeDef = TypeDef(name: Option<seq<Byte>>, kind: Kind)
  datatype Kind =
    | Alias(inner: Ty)
    | Record(fields: seq<Ty>) | Tuple(types: seq<Ty>) | Variant(cases: seq<Option<Ty>>) | Enum(count: nat)
    | Flags(count: nat) | OptionOf(some: Ty) | ResultOf(ok: Option<Ty>, err: Option<Ty>)
    | ListOf(elem: Ty) | FixedLengthList(elem: Ty, length: nat) | MapOf(key: Ty, value: Ty)
    | HandleOf | FutureOf | StreamOf

  const DISC_STRING := 0
  const DISC_SIGNED := 1
  const DISC_UNSIGNED := 2
  const DISC_F32 := 3
  const DISC_F64 := 4
  const DISC_BOOL := 5
  const DISC_COMPLEX := 6

  const MAX_FLAT_PARAMS := 16
  const MAX_FLAT_RESULTS := 1
  const FLAT_BUFFER := 64

  /** The advice protocol's variant tag for a type. */
  function ValueDiscriminant(ty: Ty): nat {
    match ty
    case Text => DISC_STRING
    case S8 | S16 | S32 | S64 => DISC_SIGNED
    case U8 | U16 | U32 | U64 | Char => DISC_UNSIGNED
    case Float32 => DISC_F32
    case Float64 => DISC_F64
    case Bool => DISC_BOOL
    case ErrorContext => DISC_COMPLEX
    case Id(def) => if def.kind.Alias? then ValueDiscriminant(def.kind.inner) else DISC_COMPLEX
  }

  const EMPTY := Fields([])

  /** What the canonical ABI makes of a type. */
  function LayoutOf(ty: Ty): Layout {
    match ty
    case Bool | S8 | U8 => Prim(I32, 1)
    case S16 | U16 => Prim(I32, 2)
    case S32 | U32 | Char | ErrorContext => Prim(I32, 4)
    case S64 | U64 => Prim(I64, 8)
    case Float32 => Prim(F32, 4)
    case Float64 => Prim(F64, 8)
    case Text => Pointed(Prim(I32, 1))
    case Id(def) =>
      match def.kind
      case Alias(inner) => LayoutOf(inner)
      case Record(fields) => Fields(seq(|fields|, i requires 0 <= i < |fields| => LayoutOf(fields[i])))
      case Tuple(types) => Fields(seq(|types|, i requires 0 <= i < |types| => LayoutOf(types[i])))
      case Variant(cases) => Cases(seq(|cases|, i requires 0 <= i < |cases| => PayloadOf(cases[i])))
      case Enum(count) => Cases(seq(count, _ => EMPTY))
      case Flags(count) => FlagsLayout(count)
      case OptionOf(some) => Cases([EMPTY, LayoutOf(some)])
      case ResultOf(ok, err) => Cases([PayloadOf(ok), PayloadOf(err)])
      case ListOf(elem) => Pointed(LayoutOf(elem))
      case FixedLengthList(elem, length) => Fields(seq(length, _ => LayoutOf(elem)))
      case MapOf(key, value) => Pointed(Fields([LayoutOf(key), LayoutOf(value)]))
      case HandleOf | FutureOf | StreamOf => Prim(I32, 4)
  }

  function PayloadOf(ty: Option<Ty>): Layout {
    if ty.Some? then LayoutOf(ty.value) else EMPTY
  }

  /** One number for up to sixteen flags, else a word for every thirty-two. */
  function FlagsLayout(count: nat): Layout {
    if count == 0 then EMPTY
    else if count <= 8 then Prim(I32, 1)
    else if count <= 16 then Prim(I32, 2)
    else Fields(seq((count + 31) / 32, _ => Prim(I32, 4)))
  }

  /** A type's layout is that of the record or variant it abbreviates (Component Model, "Despecialization"). */
  lemma Despecialized(name: Option<seq<Byte>>, tys: seq<Ty>, a: Ty, b: Ty, ok: Option<Ty>, err: Option<Ty>, n: nat)
    ensures LayoutOf(Id(TypeDef(name, Tuple(tys)))) == LayoutOf(Id(TypeDef(name, Record(tys))))
    ensures LayoutOf(Id(TypeDef(name, OptionOf(a)))) == LayoutOf(Id(TypeDef(name, Variant([None, Some(a)]))))
    ensures LayoutOf(Id(TypeDef(name, ResultOf(ok, err)))) == LayoutOf(Id(TypeDef(name, Variant([ok, err]))))
    ensures LayoutOf(Id(TypeDef(name, Enum(n)))) == LayoutOf(Id(TypeDef(name, Variant(seq(n, _ => None)))))
    ensures LayoutOf(Id(TypeDef(name, FixedLengthList(a, n)))) == LayoutOf(Id(TypeDef(name, Record(seq(n, _ => a)))))
    ensures LayoutOf(Id(TypeDef(name, MapOf(a, b)))) ==
            LayoutOf(Id(TypeDef(name, ListOf(Id(TypeDef(None, Tuple([a, b])))))))
  {
    hide LayoutOf;
    TupleIsRecord(name, tys);
    TwoCases(name, None, Some(a));
    OptionIs(name, a);
    TwoCases(name, ok, err);
    EnumIsVariant(name, n);
    RepeatedIsRecord(name, a, n);
    MapIsList(name, a, b);
  }

  lemma TupleIsRecord(name: Option<seq<Byte>>, tys: seq<Ty>)
    ensures LayoutOf(Id(TypeDef(name, Tuple(tys)))) == LayoutOf(Id(TypeDef(name, Record(tys))))
  {
    assert LayoutOf(Id(TypeDef(name, Tuple(tys)))).fields == LayoutOf(Id(TypeDef(name, Record(tys)))).fields;
  }

  lemma OptionIs(name: Option<seq<Byte>>, a: Ty)
    ensures LayoutOf(Id(TypeDef(name, OptionOf(a)))) == Cases([PayloadOf(None), PayloadOf(Some(a))])
  {
  }

  /** A variant of two cases, and a result with the same payloads. */
  lemma TwoCases(name: Option<seq<Byte>>, a: Option<Ty>, b: Option<Ty>)
    ensures LayoutOf(Id(TypeDef(name, Variant([a, b])))) == Cases([PayloadOf(a), PayloadOf(b)])
    ensures LayoutOf(Id(TypeDef(name, ResultOf(a, b)))) == Cases([PayloadOf(a), PayloadOf(b)])
  {
    assert LayoutOf(Id(TypeDef(name, Variant([a, b])))).cases == [PayloadOf(a), PayloadOf(b)];
  }

  lemma EnumIsVariant(name: Option<seq<Byte>>, n: nat)
    ensures LayoutOf(Id(TypeDef(name, Enum(n)))) == LayoutOf(Id(TypeDef(name, Variant(seq(n, _ => None)))))
  {
    assert LayoutOf(Id(TypeDef(name, Enum(n)))).cases == LayoutOf(Id(TypeDef(name, Variant(seq(n, _ => None))))).cases;
  }

  lemma RepeatedIsRecord(name: Option<seq<Byte>>, a: Ty, n: nat)
    ensures LayoutOf(Id(TypeDef(name, FixedLengthList(a, n)))) == LayoutOf(Id(TypeDef(name, Record(seq(n, _ => a)))))
  {
    assert LayoutOf(Id(TypeDef(name, FixedLengthList(a, n)))).fields ==
           LayoutOf(Id(TypeDef(name, Record(seq(n, _ => a))))).fields;
  }

  lemma MapIsList(name: Option<seq<Byte>>, a: Ty, b: Ty)
    ensures LayoutOf(Id(TypeDef(name, MapOf(a, b)))) ==
            LayoutOf(Id(TypeDef(name, ListOf(Id(TypeDef(None, Tuple([a, b])))))))
  {
    assert LayoutOf(Id(TypeDef(None, Tuple([a, b])))).fields == [LayoutOf(a), LayoutOf(b)];
  }

  function Flatten(ty: Ty): seq<WT> {
    Flats(LayoutOf(ty))
  }

  /** Fails when the flat buffer overflows. */
  function FlatTypes(ty: Ty): Result<seq<WT>, string> {
    if |Flatten(ty)| > FLAT_BUFFER then Failure("too many flat fields") else Success(Flatten(ty))
  }

  datatype Param = Param(name: seq<Byte>, ty: Ty)
  datatype WitFunction = WitFunction(name: seq<Byte>, params: seq<Param>, result: Option<Ty>)

  datatype InterceptedFunction = InterceptedFunction(
    funcName: seq<Byte>,
    params: seq<Param>,
    result: Option<Ty>,
    coreParamsLower: seq<WT>,
    coreResultsLower: seq<WT>,
    coreParamsLift: seq<WT>,
    coreResultsLift: seq<WT>,
    paramFlats: seq<seq<WT>>,
    resultFlats: seq<WT>,
    usesRetarea: bool,
    paramDiscs: seq<nat>,
    resultDisc: Option<nat>)

  function ResultLayout(f: InterceptedFunction): Layout {
    PayloadOf(f.result)
  }

  function Concat<T>(groups: seq<seq<T>>): seq<T> {
    if groups == [] then [] else Concat(groups[..|groups| - 1]) + groups[|groups| - 1]
  }

  /** Fails at the first type whose flats do not fit. */
  function AllFlats(params: seq<Param>): (r: Result<seq<seq<WT>>, string>)
    ensures r.Success? ==> |r.value| == |params|
  {
    if params == [] then
      Success([])
    else
      var front :- AllFlats(params[..|params| - 1]);
      var last :- FlatTypes(params[|params| - 1].ty);
      Success(front + [last])
  }

  function Derive(fn: WitFunction): Result<InterceptedFunction, string> {
    var paramFlats :- AllFlats(fn.params);
    var resultFlats :- (match fn.result case None => Success([]) case Some(ty) => FlatTypes(ty));
    var all := Concat(paramFlats);
    var area := |resultFlats| > MAX_FLAT_RESULTS;
    Success(InterceptedFunction(
              fn.name, fn.params, fn.result,
              if area then all + [I32] else all,
              if area then [] else resultFlats,
              if |all| > MAX_FLAT_PARAMS then [I32] else all,
              if area then [I32] else resultFlats,
              paramFlats, resultFlats, area,
              seq(|fn.params|, i requires 0 <= i < |fn.params| => ValueDiscriminant(fn.params[i].ty)),
              match fn.result case None => None case Some(ty) => Some(ValueDiscriminant(ty))))
  }

  /** A discriminant other than complex fixes the flats. */
  predicate DiscFits(disc: nat, flats: seq<WT>) {
    match disc
    case 0 => flats == [I32, I32]
    case 1 => flats == [I32] || flats == [I64]
    case 2 => flats == [I32] || flats == [I64]
    case 3 => flats == [F32]
    case 4 => flats == [F64]
    case 5 => flats == [I32]
    case 6 => true
    case _ => false
  }

  /** The signatures the generator supports: direct parameters, and a result that has a core value. */
  predicate InScope(f: InterceptedFunction) {
    && |Concat(f.paramFlats)| <= MAX_FLAT_PARAMS
    && (f.result.Some? ==> |f.resultFlats| >= 1)
  }

  /** What the derived fields of a supported function satisfy among themselves. */
  predicate Consistent(f: InterceptedFunction) {
    && InScope(f)
    && |f.paramFlats| == |f.paramDiscs| == |f.params|
    && (forall i :: 0 <= i < |f.params| ==> DiscFits(f.paramDiscs[i], f.paramFlats[i]))
    && (f.result.Some? <==> f.resultDisc.Some?)
    && f.resultFlats == (if f.result.Some? then Flatten(f.result.value) else [])
    && (f.resultDisc.Some? ==> DiscFits(f.resultDisc.value, f.resultFlats))
    && f.usesRetarea == (|f.resultFlats| > MAX_FLAT_RESULTS)
    && f.coreParamsLift == Concat(f.paramFlats)
    && f.coreResultsLift == (if f.usesRetarea then [I32] else f.resultFlats)
    && f.coreParamsLower == Concat(f.paramFlats) + (if f.usesRetarea then [I32] else [])
    && f.coreResultsLower == (if f.usesRetarea then [] else f.resultFlats)
  }

  lemma {:induction false} DiscriminantFitsFlats(ty: Ty)
    ensures DiscFits(ValueDiscriminant(ty), Flatten(ty))
  {
    if ty.Id? && ty.def.kind.Alias? {
      DiscriminantFitsFlats(ty.def.kind.inner);
    }
  }

  lemma {:induction false} AllFlatsAre(params: seq<Param>, i: nat)
    requires i < |params| && AllFlats(params).Success?
    ensures AllFlats(params).value[i] == Flatten(params[i].ty)
  {
    if i < |params| - 1 {
      AllFlatsAre(params[..|params| - 1], i);
    }
  }

  /** Every derived function that is in scope is consistent. */
  lemma DeriveConsistent(fn: WitFunction)
    requires Derive(fn).Success? && InScope(Derive(fn).value)
    ensures Consistent(Derive(fn).value)
  {
    var f := Derive(fn).value;
    forall i | 0 <= i < |f.params|
      ensures DiscFits(f.paramDiscs[i], f.paramFlats[i])
    {
      AllFlatsAre(fn.params, i);
      DiscriminantFitsFlats(fn.params[i].ty);
    }
    if fn.result.Some? {
      DiscriminantFitsFlats(fn.result.value);
    }
  }

  /** The name the advice sees for a parameter's type. */
  function TypeName(ty: Ty): seq<Byte> {
    match ty
    case Bool => Ascii("bool")
    case U8 => Ascii("u8")
    case U16 => Ascii("u16")
    case U32 => Ascii("u32")
    case U64 => Ascii("u64")
    case S8 => Ascii("s8")
    case S16 => Ascii("s16")
    case S32 => Ascii("s32")
    case S64 => Ascii("s64")
    case Float32 => Ascii("f32")
    case Float64 => Ascii("f64")
    case Char => Ascii("char")
    case Text => Ascii("string")
    case ErrorContext => Ascii("unknown")
    case Id(def) =>
      if def.name.Some? then def.name.value
      else match def.kind
        case Alias(inner) => TypeName(inner)
        case Record(_) => Ascii("record")
        case Tuple(_) => Ascii("tuple")
        case Variant(_) => Ascii("variant")
        case Enum(_) => Ascii("enum")
        case Flags(_) => Ascii("flags")
        case OptionOf(_) => Ascii("option")
        case ResultOf(_, _) => Ascii("result")
        case ListOf(_) => Ascii("list")
        case FixedLengthList(_, _) => Ascii("fixed-length-list")
        case MapOf(_, _) => Ascii("map")
        case HandleOf => Ascii("handle")
        case FutureOf => Ascii("future")
        case StreamOf => Ascii("stream")
  }

  function Ascii(s: string): seq<Byte> {
    seq(|s|, i requires 0 <= i < |s| => s[i] as int % 256)
  }

  // ---- Layout of an indirect return area -------------------------------------------------

  /** End of the first `j` result components, each at its natural alignment. */
  function AreaEnd(flats: seq<WT>, j: nat): nat
    requires j <= |flats|
    decreases j, 0
  {
    if j == 0 then 0 else SlotOffset(flats, j - 1) + flats[j - 1].Size()
  }

  function SlotOffset(flats: seq<WT>, j: nat): nat
    requires j < |flats|
    decreases j, 1
  {
    AlignUp(AreaEnd(flats, j), flats[j].Size())
  }

  function RetSize(flats: seq<WT>): nat {
    AreaEnd(flats, |flats|)
  }

  /** Every component is naturally aligned, inside the area, and after its predecessors. */
  lemma {:induction false} SlotInArea(flats: seq<WT>, j: nat, k: nat)
    requires j < k <= |flats|
    ensures SlotOffset(flats, j) % flats[j].Size() == 0
    ensures SlotOffset(flats, j) + flats[j].Size() <= AreaEnd(flats, k)
    decreases k
  {
    if j < k - 1 {
      SlotInArea(flats, j, k - 1);
    }
  }
}
