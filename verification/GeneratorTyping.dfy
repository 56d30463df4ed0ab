/** The emitted interceptor always type-checks. */
module GeneratorTyping {
  import opened Wrappers
  import opened Memory
  import opened Layouts
  import opened Signature
  import opened Protocol
  import opened CoreWasm
  import opened Generator
  import opened InterceptorEntry
  import opened InterceptorTarget

  // ---- Type rules -------------------------------------------------------------------------------------

  datatype Env = Env(params: seq<WT>, locals: seq<(Local, WT)>)

  /** The declared type of a local. */
  function Find(locals: seq<(Local, WT)>, l: Local): Option<WT> {
    if locals == [] then None
    else if locals[|locals| - 1].0 == l then Some(locals[|locals| - 1].1)
    else Find(locals[..|locals| - 1], l)
  }

  predicate DistinctNames(locals: seq<(Local, WT)>) {
    forall i, j :: 0 <= i < j < |locals| ==> locals[i].0 != locals[j].0
  }

  /** The type of an expression; a numeric local index must name a parameter. */
  function TypeOf(e: Expr, env: Env): Option<WT> {
    match e
    case GetParam(i) => if i < |env.params| then Some(env.params[i]) else None
    case Get(l) => Find(env.locals, l)
    case Heap => Some(I32)
    case Const32(n) => if n < T32 then Some(I32) else None
    case Const64(n) => if n < T64 then Some(I64) else None
    case Add(a, b) => if TypeOf(a, env) == Some(I32) == TypeOf(b, env) then Some(I32) else None
    case Eq(a, b) => if TypeOf(a, env) == Some(I32) == TypeOf(b, env) then Some(I32) else None
    case Ne(a, b) => if TypeOf(a, env) == Some(I32) == TypeOf(b, env) then Some(I32) else None
    case LoadE(op, _, addr) => if TypeOf(addr, env) == Some(I32) then Some(op.Type()) else None
    case WrapI64(x) => if TypeOf(x, env) == Some(I64) then Some(I32) else None
    case ExtendS(x) => if TypeOf(x, env) == Some(I32) then Some(I64) else None
    case ExtendU(x) => if TypeOf(x, env) == Some(I32) then Some(I64) else None
    case ReinterpretF32(x) => if TypeOf(x, env) == Some(F32) then Some(I32) else None
    case ReinterpretF64(x) => if TypeOf(x, env) == Some(F64) then Some(I64) else None
  }

  predicate HasTypes(es: seq<Expr>, types: seq<WT>, env: Env) {
    |es| == |types| && forall i :: 0 <= i < |es| ==> TypeOf(es[i], env) == Some(types[i])
  }

  /** `f` supplies the target import's type. */
  predicate CheckInstr(f: InterceptedFunction, i: Instr, env: Env)
    decreases i, 0
  {
    match i
    case Set(l, e) => Find(env.locals, l).Some? && TypeOf(e, env) == Find(env.locals, l)
    case SetHeap(e) => TypeOf(e, env) == Some(I32)
    case StoreI(op, _, addr, e) => TypeOf(addr, env) == Some(I32) && TypeOf(e, env) == Some(op.Type())
    case SetAlloc(l, size) => Find(env.locals, l) == Some(I32) && size < T32
    case SetNew(l, name, len, list, count) => Find(env.locals, l) == Some(I32)
        && HasTypes([name, len, list, count], [I32, I32, I32, I32], env)
    case CallBefore(handle, ret) => HasTypes([handle, ret], [I32, I32], env)
    case CallTarget(dst, args) =>
      && HasTypes(args, f.coreParamsLower, env)
      && (if dst.Some? then |f.coreResultsLower| == 1 && Find(env.locals, dst.value) == Some(f.coreResultsLower[0])
          else f.coreResultsLower == [])
    case CallAfter(handle, some, tag, wide, narrow, ret) =>
      HasTypes([handle, some, tag, wide, narrow, ret], [I32, I32, I32, I64, I32, I32], env)
    case CallDrop(handle) => TypeOf(handle, env) == Some(I32)
    case If(cond, then_) => TypeOf(cond, env) == Some(I32) && Check(f, then_, env)
    case Block(body) => Check(f, body, env)
    case LoopI(body) => Check(f, body, env)
    case _ => true
  }

  predicate Check(f: InterceptedFunction, c: seq<Instr>, env: Env)
    decreases c, 0
  {
    forall k :: 0 <= k < |c| ==> CheckInstr(f, c[k], env)
  }

  predicate WellTyped(f: InterceptedFunction, func: Func) {
    var env := Env(func.params, func.locals);
    DistinctNames(func.locals) && Check(f, func.body, env) && HasTypes(func.ret, func.results, env)
  }

  // ---- Declared locals ----------------------------------------------------------------------------------

  lemma {:induction false} FindAppend(a: seq<(Local, WT)>, b: seq<(Local, WT)>, l: Local)
    ensures Find(a + b, l) == if Find(b, l).Some? then Find(b, l) else Find(a, l)
  {
    if b == [] {
      assert a + b == a;
    } else {
      assert (a + b)[..|a + b| - 1] == a + b[..|b| - 1];
      FindAppend(a, b[..|b| - 1], l);
    }
  }

  lemma {:induction false} FindAt(locals: seq<(Local, WT)>, k: nat)
    requires k < |locals| && DistinctNames(locals)
    ensures Find(locals, locals[k].0) == Some(locals[k].1)
  {
    if k < |locals| - 1 {
      FindAt(locals[..|locals| - 1], k);
    }
  }

  predicate ArgName(l: Local, n: nat) {
    (l.ArgVal? && l.pi < n) || (l.ArgPart? && l.pi < n)
  }

  lemma {:induction false} ArgNames(paramFlats: seq<seq<WT>>, n: nat)
    requires n <= |paramFlats|
    ensures DistinctNames(AllArgLocals(paramFlats, n))
    ensures forall k :: 0 <= k < |AllArgLocals(paramFlats, n)| ==> ArgName(AllArgLocals(paramFlats, n)[k].0, n)
  {
    if n > 0 {
      ArgNames(paramFlats, n - 1);
    }
  }

  lemma LocalsDistinct(f: InterceptedFunction)
    ensures DistinctNames(Locals(f))
    ensures forall l: Local :: Find(FixedLocals(f), l).Some? ==> Find(Locals(f), l) == Find(FixedLocals(f), l)
  {
    var args := AllArgLocals(f.paramFlats, |f.paramFlats|);
    ArgNames(f.paramFlats, |f.paramFlats|);
    FixedNames(f);
    var parts := if f.usesRetarea then ResultLocals(f.resultFlats) else [];
    assert forall k :: 0 <= k < |parts| ==> parts[k].0.ResultPart?;
    forall l: Local | Find(FixedLocals(f), l).Some?
      ensures Find(Locals(f), l) == Find(FixedLocals(f), l)
    {
      FindAppend(FixedLocals(f) + args, parts, l);
      FindAppend(FixedLocals(f), args, l);
      FoundName(FixedLocals(f), l);
      if Find(args, l).Some? { FoundName(args, l); }
      if Find(parts, l).Some? { FoundName(parts, l); }
    }
  }

  predicate FixedName(l: Local) {
    !l.ArgVal? && !l.ArgPart? && !l.ResultPart?
  }

  lemma FixedNames(f: InterceptedFunction)
    ensures DistinctNames(FixedLocals(f))
    ensures forall k :: 0 <= k < |FixedLocals(f)| ==> FixedName(FixedLocals(f)[k].0)
    ensures forall l :: l in {ArgsArea, Handle, BeforeRet, AfterRet, Disc, Watermark} ==>
              Find(FixedLocals(f), l) == Some(I32)
    ensures f.usesRetarea ==> Find(FixedLocals(f), TargetRet) == Some(I32) && Find(FixedLocals(f), Out) == Some(I32)
    ensures !f.usesRetarea && f.resultFlats != [] ==>
              Find(FixedLocals(f), ResultVal) == Some(f.resultFlats[0])
                && Find(FixedLocals(f), Out) == Some(f.resultFlats[0])
  {
    var x := FixedLocals(f);
    forall k | 0 <= k < |x|
      ensures Find(x, x[k].0) == Some(x[k].1)
    {
      FindAt(x, k);
    }
    assert x[0].0 == ArgsArea && x[1].0 == Handle && x[2].0 == BeforeRet && x[3].0 == AfterRet && x[4].0 == Disc
      && x[5].0 == Watermark;
    if |x| > 6 {
      assert x[6].0 == (if f.usesRetarea then TargetRet else ResultVal) && x[7].0 == Out;
    }
  }

  lemma {:induction false} FoundName(locals: seq<(Local, WT)>, l: Local)
    requires Find(locals, l).Some?
    ensures exists k :: 0 <= k < |locals| && locals[k] == (l, Find(locals, l).value)
  {
    if locals[|locals| - 1].0 != l {
      FoundName(locals[..|locals| - 1], l);
    }
  }

  lemma {:induction false} ArgAtIndex(paramFlats: seq<seq<WT>>, n: nat, i: nat, j: nat)
    requires i < n <= |paramFlats| && j < |paramFlats[i]|
    ensures exists k :: 0 <= k < |AllArgLocals(paramFlats, n)| &&
                        AllArgLocals(paramFlats, n)[k] ==
                          (if |paramFlats[i]| == 1 then ArgVal(i) else ArgPart(i, j), paramFlats[i][j])
  {
    var before, last := AllArgLocals(paramFlats, n - 1), ArgLocals(n - 1, paramFlats[n - 1]);
    var all := AllArgLocals(paramFlats, n);
    assert all == before + last;
    var entry := (if |paramFlats[i]| == 1 then ArgVal(i) else ArgPart(i, j), paramFlats[i][j]);
    if i < n - 1 {
      ArgAtIndex(paramFlats, n - 1, i, j);
      hide AllArgLocals, ArgLocals;
      var k :| 0 <= k < |before| && before[k] == entry;
      assert all[k] == entry;
    } else {
      assert last[j] == entry;
      hide AllArgLocals, ArgLocals;
      assert all[|before| + j] == entry;
    }
  }

  /** What the body needs of its environment. */
  ghost predicate EnvOk(f: InterceptedFunction, env: Env) {
    && env.params == f.coreParamsLift
    && (forall l :: l in {ArgsArea, Handle, BeforeRet, AfterRet, Disc, Watermark} ==> Find(env.locals, l) == Some(I32))
    && (f.usesRetarea ==> Find(env.locals, TargetRet) == Some(I32) && Find(env.locals, Out) == Some(I32))
    && (!f.usesRetarea && f.resultFlats != [] ==>
          Find(env.locals, ResultVal) == Some(f.resultFlats[0]) && Find(env.locals, Out) == Some(f.resultFlats[0]))
    && (forall i, j :: 0 <= i < |f.paramFlats| && 0 <= j < |f.paramFlats[i]| ==>
          Find(env.locals, if |f.paramFlats[i]| == 1 then ArgVal(i) else ArgPart(i, j)) == Some(f.paramFlats[i][j]))
    && (f.usesRetarea ==> forall j :: 0 <= j < |f.resultFlats| ==>
        Find(env.locals, ResultPart(j)) == Some(f.resultFlats[j]))
  }

  lemma LocalsOk(f: InterceptedFunction)
    ensures EnvOk(f, Env(f.coreParamsLift, Locals(f)))
  {
    hide Find, FixedLocals;
    LocalsDistinct(f);
    FixedNames(f);
    var args := AllArgLocals(f.paramFlats, |f.paramFlats|);
    var head := FixedLocals(f) + args;
    forall i, j | 0 <= i < |f.paramFlats| && 0 <= j < |f.paramFlats[i]|
      ensures Find(Locals(f), if |f.paramFlats[i]| == 1 then ArgVal(i) else ArgPart(i, j)) == Some(f.paramFlats[i][j])
    {
      ArgAtIndex(f.paramFlats, |f.paramFlats|, i, j);
      var k :| 0 <= k < |args| && args[k] ==
        (if |f.paramFlats[i]| == 1 then ArgVal(i) else ArgPart(i, j), f.paramFlats[i][j]);
      assert Locals(f)[|FixedLocals(f)| + k] == args[k];
      FindAt(Locals(f), |FixedLocals(f)| + k);
    }
    if f.usesRetarea {
      forall j | 0 <= j < |f.resultFlats|
        ensures Find(Locals(f), ResultPart(j)) == Some(f.resultFlats[j])
      {
        assert Locals(f)[|head| + j] == (ResultPart(j), f.resultFlats[j]);
        FindAt(Locals(f), |head| + j);
      }
    }
  }

  // ---- The body, section by section ----------------------------------------------------------------------

  predicate OffsetsFit(s: Strings) {
    && s.fnameOff < T32 && s.fnameLen < T32
    && forall i :: 0 <= i < |s.params| ==>
         s.params[i].nameOff < T32 && s.params[i].nameLen < T32 && s.params[i].typeOff < T32
           && s.params[i].typeLen < T32
  }

  lemma CheckAppend(f: InterceptedFunction, a: seq<Instr>, b: seq<Instr>, env: Env)
    requires Check(f, a, env) && Check(f, b, env)
    ensures Check(f, a + b, env)
  {
    hide CheckInstr;
  }

  /** Loads through an address of type i32. */
  lemma LoadTypes(e: Expr, env: Env)
    requires TypeOf(e, env) == Some(I32)
    ensures forall op, off :: TypeOf(LoadE(op, off, e), env) == Some(op.Type())
    ensures forall off :: TypeOf(WrapI64(LoadE(I64Load, off, e)), env) == Some(I32)
    ensures forall n: nat :: n < T32 ==> TypeOf(Ne(LoadE(I32Load8U, 16, e), Const32(n)), env) == Some(I32)
  {
    forall off
      ensures TypeOf(WrapI64(LoadE(I64Load, off, e)), env) == Some(I32)
    {
      assert TypeOf(LoadE(I64Load, off, e), env) == Some(I64);
    }
    forall n: nat | n < T32
      ensures TypeOf(Ne(LoadE(I32Load8U, 16, e), Const32(n)), env) == Some(I32)
    {
      assert TypeOf(LoadE(I32Load8U, 16, e), env) == Some(I32);
    }
  }

  /** The short sequences that end an iteration. */
  lemma Exits(f: InterceptedFunction, env: Env)
    requires Find(env.locals, Handle) == Some(I32)
    ensures Check(f, [Unreachable], env) && Check(f, [DROP_HANDLE, Unreachable], env)
              && Check(f, [DROP_HANDLE, BrDone], env)
    ensures CheckInstr(f, DROP_HANDLE, env) && CheckInstr(f, BrRetry, env)
  {
    assert TypeOf(Get(Handle), env) == Some(I32);
    assert CheckInstr(f, Unreachable, env) && CheckInstr(f, DROP_HANDLE, env) && CheckInstr(f, BrDone, env);
  }

  lemma IfOk(f: InterceptedFunction, cond: Expr, code: seq<Instr>, env: Env)
    requires TypeOf(cond, env) == Some(I32) && Check(f, code, env)
    ensures CheckInstr(f, If(cond, code), env) && Check(f, [If(cond, code)], env)
  {
    hide TypeOf;
    assert CheckInstr(f, If(cond, code), env);
  }

  lemma SetOk(f: InterceptedFunction, l: Local, e: Expr, t: WT, env: Env)
    requires Find(env.locals, l) == Some(t) && TypeOf(e, env) == Some(t)
    ensures CheckInstr(f, Set(l, e), env) && Check(f, [Set(l, e)], env)
  {
    hide TypeOf, Find;
    assert CheckInstr(f, Set(l, e), env);
  }

  lemma OnDiscOk(f: InterceptedFunction, n: nat, code: seq<Instr>, env: Env)
    requires Find(env.locals, Disc) == Some(I32) && n < T32 && Check(f, code, env)
    ensures CheckInstr(f, OnDisc(n, code), env) && Check(f, [OnDisc(n, code)], env)
  {
    assert TypeOf(Get(Disc), env) == Some(I32) == TypeOf(Const32(n), env);
    IfOk(f, Eq(Get(Disc), Const32(n)), code, env);
  }

  /** A core parameter index is the prefix sum of the flats: it exists and has the flat's type. */
  lemma ParamType(f: InterceptedFunction, env: Env, i: nat, j: nat)
    requires Consistent(f) && EnvOk(f, env) && i < |f.params| && j < |f.paramFlats[i]|
    ensures TypeOf(GetParam(FlatStart(f.paramFlats, i) + j), env) == Some(f.paramFlats[i][j])
  {
    hide Concat, Find, DiscFits;
    ConcatSlice(f.paramFlats, i, |f.paramFlats|);
    assert f.paramFlats[..|f.paramFlats|] == f.paramFlats;
    var start, all := FlatStart(f.paramFlats, i), Concat(f.paramFlats);
    assert all[start..start + |f.paramFlats[i]|][j] == all[start + j];
  }

  lemma {:induction false} CheckMarshal(f: InterceptedFunction, s: Strings, n: nat, env: Env)
    requires Emittable(f, s) && OffsetsFit(s) && EnvOk(f, env) && n <= |f.params| && n * 32 < T32
    ensures Check(f, Marshal(f, s, n), env)
  {
    hide EnvOk, DiscFits, CheckInstr, OffsetsFit;
    if n > 0 {
      CheckMarshal(f, s, n - 1, env);
      CheckRecord(f, s, n - 1, env);
      hide Check, MarshalRecord;
      CheckAppend(f, Marshal(f, s, n - 1), MarshalRecord(f, s, n - 1), env);
    }
  }

  lemma CheckRecord(f: InterceptedFunction, s: Strings, i: nat, env: Env)
    requires Emittable(f, s) && OffsetsFit(s) && EnvOk(f, env) && i < |f.params| && i * 32 < T32
    ensures Check(f, MarshalRecord(f, s, i), env)
  {
    hide Find, FlatStart, Concat, Check, CheckInstr, TypeOf, MarshalHeader, MarshalPayload;
    var disc, flats, core := f.paramDiscs[i], f.paramFlats[i], FlatStart(f.paramFlats, i);
    assert DiscFits(disc, flats);
    GetTypes(f, env);
    CheckHeader(f, s.params[i], disc, i * 32, env);
    if disc != DISC_COMPLEX {
      ParamType(f, env, i, 0);
      if disc == DISC_STRING {
        ParamType(f, env, i, 1);
      }
    }
    CheckPayload(f, disc, flats, i * 32, core, env);
    CheckAppend(f, MarshalHeader(s.params[i], disc, i * 32), MarshalPayload(disc, flats, i * 32, core), env);
  }

  lemma CheckHeader(f: InterceptedFunction, s: ParamStrings, disc: nat, offset: nat, env: Env)
    requires s.nameOff < T32 && s.nameLen < T32 && s.typeOff < T32 && s.typeLen < T32
    requires Find(env.locals, ArgsArea) == Some(I32) && offset < T32 && disc <= 6
    ensures Check(f, MarshalHeader(s, disc, offset), env)
  {
    hide Find;
    assert TypeOf(Field(offset), env) == Some(I32);
  }

  lemma CheckPayload(f: InterceptedFunction, disc: nat, flats: seq<WT>, offset: nat, core: nat, env: Env)
    requires Find(env.locals, ArgsArea) == Some(I32) && offset < T32 && DiscFits(disc, flats)
    requires disc != DISC_COMPLEX ==> TypeOf(GetParam(core), env) == Some(flats[0])
    requires disc == DISC_STRING ==> TypeOf(GetParam(core + 1), env) == Some(flats[1])
    ensures Check(f, MarshalPayload(disc, flats, offset, core), env)
  {
    hide Find;
    assert TypeOf(Field(offset), env) == Some(I32);
  }

  lemma ArgBaseType(pi: nat, env: Env)
    requires Find(env.locals, BeforeRet) == Some(I32) && pi * 32 < T32
    ensures TypeOf(ArgBase(pi), env) == Some(I32)
  {
    assert TypeOf(Get(BeforeRet), env) == Some(I32);
    assert TypeOf(LoadE(I32Load, 8, Get(BeforeRet)), env) == Some(I32);
  }

  lemma {:induction false} CheckUnwrap(f: InterceptedFunction, n: nat, env: Env)
    requires Consistent(f) && EnvOk(f, env) && n <= |f.params| && n * 32 < T32
    ensures Check(f, Unwrap(f, n), env)
  {
    hide EnvOk, DiscFits, CheckInstr;
    if n > 0 {
      CheckUnwrap(f, n - 1, env);
      CheckUnwrapParam(f, n - 1, env);
      hide Check, UnwrapParam;
      CheckAppend(f, Unwrap(f, n - 1), UnwrapParam(n - 1, f.paramDiscs[n - 1], f.paramFlats[n - 1]), env);
    }
  }

  lemma CheckUnwrapParam(f: InterceptedFunction, i: nat, env: Env)
    requires Consistent(f) && EnvOk(f, env) && i < |f.params| && i * 32 < T32
    ensures Check(f, UnwrapParam(i, f.paramDiscs[i], f.paramFlats[i]), env)
  {
    var disc, flats := f.paramDiscs[i], f.paramFlats[i];
    assert DiscFits(disc, flats);
    assert Find(env.locals, BeforeRet) == Some(I32) && Find(env.locals, Handle) == Some(I32);
    ArgBaseType(i, env);
    if disc != DISC_COMPLEX {
      assert Find(env.locals, if |flats| == 1 then ArgVal(i) else ArgPart(i, 0)) == Some(flats[0]);
      if disc == DISC_STRING {
        assert Find(env.locals, ArgPart(i, 1)) == Some(flats[1]);
      }
    }
    hide EnvOk, Consistent, ArgBase, TypeOf, Find, Check, CheckInstr;
    LoadTypes(ArgBase(i), env);
    Exits(f, env);
    var guard := Ne(LoadE(I32Load8U, 16, ArgBase(i)), Const32(disc));
    IfOk(f, guard, [Unreachable], env);
    CheckUnwrapPayload(f, i, disc, flats, env);
    CheckAppend(f, [If(guard, [Unreachable])], UnwrapPayload(i, disc, flats), env);
  }

  lemma CheckUnwrapPayload(f: InterceptedFunction, i: nat, disc: nat, flats: seq<WT>, env: Env)
    requires DiscFits(disc, flats) && TypeOf(ArgBase(i), env) == Some(I32)
    requires disc != DISC_COMPLEX ==>
              Find(env.locals, if |flats| == 1 then ArgVal(i) else ArgPart(i, 0)) == Some(flats[0])
    requires disc == DISC_STRING ==> Find(env.locals, ArgPart(i, 1)) == Some(flats[1])
    ensures Check(f, UnwrapPayload(i, disc, flats), env)
  {
    var code := UnwrapPayload(i, disc, flats);
    hide ArgBase, TypeOf, Find, CheckInstr;
    LoadTypes(ArgBase(i), env);
    if disc == DISC_STRING {
      SetOk(f, ArgPart(i, 0), LoadE(I32Load, 24, ArgBase(i)), I32, env);
      SetOk(f, ArgPart(i, 1), LoadE(I32Load, 28, ArgBase(i)), I32, env);
    } else if disc != DISC_COMPLEX {
      SetOk(f, ArgVal(i), code[0].e, flats[0], env);
    }
  }

  lemma CallArgType(f: InterceptedFunction, i: nat, env: Env)
    requires Consistent(f) && EnvOk(f, env) && i < |f.params|
    ensures HasTypes(CallArg(i, f.paramDiscs[i], f.paramFlats[i], FlatStart(f.paramFlats, i)), f.paramFlats[i], env)
  {
    hide FlatStart, Concat;
    var disc, flats, core := f.paramDiscs[i], f.paramFlats[i], FlatStart(f.paramFlats, i);
    assert DiscFits(disc, flats);
    var arg := CallArg(i, disc, flats, core);
    forall j | 0 <= j < |flats|
      ensures TypeOf(arg[j], env) == Some(flats[j])
    {
      ParamType(f, env, i, j);
      assert Find(env.locals, if |flats| == 1 then ArgVal(i) else ArgPart(i, j)) == Some(flats[j]);
    }
  }

  lemma {:induction false} CallArgTypes(f: InterceptedFunction, n: nat, env: Env)
    requires Consistent(f) && EnvOk(f, env) && n <= |f.params|
    ensures HasTypes(CallArgs(f, n), Concat(f.paramFlats[..n]), env)
  {
    hide TypeOf, CallArg, EnvOk;
    if n > 0 {
      CallArgTypes(f, n - 1, env);
      CallArgType(f, n - 1, env);
      FlatStartStep(f.paramFlats, n - 1);
      hide FlatStart;
      CallArgsStep(f, n);
      hide CallArgs, Concat, Consistent;
      assert |f.paramFlats| == |f.paramDiscs| == |f.params|;
    }
  }

  lemma {:induction false} CheckResultLoads(f: InterceptedFunction, n: nat, env: Env)
    requires EnvOk(f, env) && f.usesRetarea && n <= |f.resultFlats|
    ensures Check(f, ResultLoads(f, n), env)
  {
    if n > 0 {
      hide CheckInstr, SlotOffset;
      CheckResultLoads(f, n - 1, env);
      assert TypeOf(Get(TargetRet), env) == Some(I32);
      LoadTypes(Get(TargetRet), env);
      var e := LoadE(LoadOf(f.resultFlats[n - 1]), SlotOffset(f.resultFlats, n - 1), Get(TargetRet));
      SetOk(f, ResultPart(n - 1), e, f.resultFlats[n - 1], env);
      CheckAppend(f, ResultLoads(f, n - 1), [Set(ResultPart(n - 1), e)], env);
    }
  }

  lemma CheckCall(f: InterceptedFunction, env: Env)
    requires Consistent(f) && EnvOk(f, env)
    ensures Check(f, CallTheTarget(f), env)
  {
    hide CallArgs, Concat, ResultLoads, DiscFits, Find;
    CallArgTypes(f, |f.params|, env);
    assert f.paramFlats[..|f.params|] == f.paramFlats;
    if f.usesRetarea {
      CheckResultLoads(f, |f.resultFlats|, env);
      assert HasTypes(CallArgs(f, |f.params|) + [Get(TargetRet)], f.coreParamsLower, env);
    }
  }

  lemma CheckFixed(f: InterceptedFunction, s: Strings, env: Env)
    requires Emittable(f, s) && OffsetsFit(s) && EnvOk(f, env) && |f.params| * 32 < T32
    ensures Check(f, Begin(f, s), env) && Check(f, AfterDispatch(f), env) && Check(f, [DROP_HANDLE, BrDone], env)
  {
    hide Find, CheckInstr, OnDisc, CallTheAfter, Consistent, TypeOf;
    GetTypes(f, env);
    Exits(f, env);
    LoadTypes(Get(BeforeRet), env);
    LoadTypes(Get(AfterRet), env);
    CheckAfter(f, env);
    OnDiscOk(f, 2, [DROP_HANDLE, Unreachable], env);
    SetOk(f, Disc, LoadE(I32Load8U, 0, Get(BeforeRet)), I32, env);
    SetOk(f, Disc, LoadE(I32Load8U, 0, Get(AfterRet)), I32, env);
    SetOk(f, ArgsArea, LoadE(I32Load, 8, Get(AfterRet)), I32, env);
    assert Check(f, [Set(ArgsArea, LoadE(I32Load, 8, Get(AfterRet))), DROP_HANDLE, BrRetry], env);
    OnDiscOk(f, 1, [Set(ArgsArea, LoadE(I32Load, 8, Get(AfterRet))), DROP_HANDLE, BrRetry], env);
    CheckOpening(f, s, env);
    hide EnvOk;
    assert Check(f, AfterDispatch(f), env);
    var code := Begin(f, s);
    assert Check(f, [code[0], code[1], code[2]] + [code[3], code[4]], env);
    assert code == [code[0], code[1], code[2]] + [code[3], code[4]];
  }

  lemma GetTypes(f: InterceptedFunction, env: Env)
    requires EnvOk(f, env)
    ensures forall l :: l in {ArgsArea, Handle, BeforeRet, AfterRet, Disc, Watermark} ==>
              Find(env.locals, l) == Some(I32) && TypeOf(Get(l), env) == Some(I32)
  {
  }

  lemma CheckOpening(f: InterceptedFunction, s: Strings, env: Env)
    requires EnvOk(f, env) && OffsetsFit(s) && |f.params| < T32
    ensures var code := Begin(f, s);
              CheckInstr(f, code[0], env) && CheckInstr(f, code[1], env) && CheckInstr(f, code[2], env)
  {
    GetTypes(f, env);
  }

  lemma CheckAfter(f: InterceptedFunction, env: Env)
    requires Consistent(f) && EnvOk(f, env)
    ensures CheckInstr(f, CallTheAfter(f), env)
  {
    hide Find, Concat, Check, Flatten;
    GetTypes(f, env);
    if f.resultDisc.Some? {
      var disc := f.resultDisc.value;
      assert DiscFits(disc, f.resultFlats);
      if disc == DISC_STRING {
        assert TypeOf(Get(ResultPart(0)), env) == Some(I32) && TypeOf(Get(ResultPart(1)), env) == Some(I32);
      } else if disc != DISC_COMPLEX {
        assert TypeOf(Get(ResultVal), env) == Some(f.resultFlats[0]);
        assert disc == DISC_F32 ==> TypeOf(ReinterpretF32(Get(ResultVal)), env) == Some(I32);
      }
      assert TypeOf(CallTheAfter(f).wide, env) == Some(I64);
      hide EnvOk, Consistent, DiscFits;
      assert TypeOf(CallTheAfter(f).narrow, env) == Some(I32);
    }
  }

  lemma CheckUnwrapOut(f: InterceptedFunction, disc: nat, base: Local, env: Env)
    requires Consistent(f) && EnvOk(f, env) && f.resultDisc == Some(disc) && (base == BeforeRet || base == AfterRet)
    ensures Check(f, UnwrapOut(disc, FirstFlat(f), f.usesRetarea, base), env)
  {
    assert DiscFits(disc, f.resultFlats);
    GetTypes(f, env);
    LoadTypes(Get(base), env);
    assert TypeOf(Get(Out), env) == Find(env.locals, Out);
    var code := UnwrapOut(disc, FirstFlat(f), f.usesRetarea, base);
    hide Check, CheckInstr;
    if disc == DISC_COMPLEX {
      Exits(f, env);
    } else if f.usesRetarea {
      StoresOk(f, base, env);
    } else {
      SetOk(f, Out, code[0].e, f.resultFlats[0], env);
    }
  }

  lemma StoresOk(f: InterceptedFunction, base: Local, env: Env)
    requires TypeOf(Get(base), env) == Some(I32) && Find(env.locals, Out) == Some(I32)
    ensures Check(f, UnwrapOut(DISC_STRING, I32, true, base), env)
  {
    LoadTypes(Get(base), env);
  }

  lemma CheckReturns(f: InterceptedFunction, env: Env)
    requires Consistent(f) && EnvOk(f, env)
    ensures Check(f, SkipReturn(f), env) && Check(f, AcceptReturn(f), env)
  {
    GetTypes(f, env);
    Exits(f, env);
    LoadTypes(Get(BeforeRet), env);
    LoadTypes(Get(AfterRet), env);
    hide Check, CheckInstr, TypeOf, Find;
    if f.resultDisc.Some? {
      var disc := f.resultDisc.value;
      assert disc < T32 by { assert DiscFits(disc, f.resultFlats); }
      CheckUnwrapOut(f, disc, BeforeRet, env);
      CheckUnwrapOut(f, disc, AfterRet, env);
      hide UnwrapOut, DiscFits;
      IfOk(f, Ne(LoadE(I32Load8U, 16, Get(BeforeRet)), Const32(disc)), [DROP_HANDLE, Unreachable], env);
      IfOk(f, Ne(LoadE(I32Load8U, 16, Get(AfterRet)), Const32(disc)), [Unreachable], env);
      var guard := if disc != DISC_COMPLEX
        then [If(Ne(LoadE(I32Load8U, 16, Get(BeforeRet)), Const32(disc)), [DROP_HANDLE, Unreachable])] else [];
      var unwrap := UnwrapOut(disc, FirstFlat(f), f.usesRetarea, BeforeRet);
      assert Check(f, guard, env) by { CheckNone(f, env); }
      CheckAppend(f, guard, unwrap, env);
      CheckAppend(f, guard + unwrap, [DROP_HANDLE, BrDone], env);
      OnDiscOk(f, 1, guard + unwrap + [DROP_HANDLE, BrDone], env);
      CheckAcceptTail(f, disc, env);
    } else {
      OnDiscOk(f, 1, [DROP_HANDLE, BrDone], env);
      CheckNone(f, env);
    }
  }

  lemma CheckNone(f: InterceptedFunction, env: Env)
    ensures Check(f, [], env)
  {
  }

  lemma CheckAcceptTail(f: InterceptedFunction, disc: nat, env: Env)
    requires Consistent(f) && EnvOk(f, env) && f.resultDisc == Some(disc)
    requires Check(f, [If(Ne(LoadE(I32Load8U, 16, Get(AfterRet)), Const32(disc)), [Unreachable])], env)
    requires Check(f, UnwrapOut(disc, FirstFlat(f), f.usesRetarea, AfterRet), env)
    ensures Check(f, AcceptReturn(f), env)
  {
    assert TypeOf(Get(TargetRet), env) == Find(env.locals, TargetRet)
      && TypeOf(Get(ResultVal), env) == Find(env.locals, ResultVal);
    hide Check, CheckInstr, UnwrapOut;
    var guard := [If(Ne(LoadE(I32Load8U, 16, Get(AfterRet)), Const32(disc)), [Unreachable])];
    if disc != DISC_COMPLEX {
      CheckAppend(f, guard, UnwrapOut(disc, FirstFlat(f), f.usesRetarea, AfterRet), env);
    } else if f.usesRetarea {
      SetOk(f, Out, Get(TargetRet), I32, env);
      CheckAppend(f, guard, [Set(Out, Get(TargetRet))], env);
    } else {
      SetOk(f, Out, Get(ResultVal), f.resultFlats[0], env);
      CheckAppend(f, guard, [Set(Out, Get(ResultVal))], env);
    }
  }

  /** Every emitted function validates: locals declared once, each use at its type, every call at its import's type. */
  lemma InterceptorTypes(f: InterceptedFunction, s: Strings)
    requires Emittable(f, s) && OffsetsFit(s) && |f.params| * 32 < T32 && RetSize(f.resultFlats) < T32
    ensures WellTyped(f, Interceptor(f, s))
  {
    hide Find, Begin, SkipReturn, AcceptReturn, AfterDispatch, CallTheTarget, Unwrap, Marshal, FixedLocals;
    var env := Env(f.coreParamsLift, Locals(f));
    LocalsOk(f);
    LocalsDistinct(f);
    CheckMarshal(f, s, |f.params|, env);
    CheckUnwrap(f, |f.params|, env);
    CheckCall(f, env);
    CheckFixed(f, s, env);
    CheckReturns(f, env);
    CheckAllocate(f, env);
    CheckLoop(f, s, env);
    CheckAppend(f, Allocate(f), Marshal(f, s, |f.params|), env);
    CheckBody(f, s, env);
    assert HasTypes(Interceptor(f, s).ret, f.coreResultsLift, env) by {
      assert TypeOf(Get(Out), env) == Find(Locals(f), Out); }
  }

  lemma CheckAllocate(f: InterceptedFunction, env: Env)
    requires EnvOk(f, env) && |f.params| * 32 < T32 && RetSize(f.resultFlats) < T32
    ensures Check(f, Allocate(f), env)
  {
    hide RetSize;
  }

  lemma CheckLoop(f: InterceptedFunction, s: Strings, env: Env)
    requires Emittable(f, s)
    requires Check(f, Begin(f, s), env) && Check(f, SkipReturn(f), env) && Check(f, Unwrap(f, |f.params|), env)
    requires Check(f, CallTheTarget(f), env) && Check(f, AfterDispatch(f), env) && Check(f, AcceptReturn(f), env)
    requires Check(f, [DROP_HANDLE, BrDone], env)
    ensures Check(f, LoopBody(f, s), env)
  {
    hide Check, Begin, SkipReturn, Unwrap, CallTheTarget, AfterDispatch, AcceptReturn;
    var a := Begin(f, s) + SkipReturn(f);
    CheckAppend(f, Begin(f, s), SkipReturn(f), env);
    CheckAppend(f, a, Unwrap(f, |f.params|), env);
    var b := a + Unwrap(f, |f.params|);
    CheckAppend(f, b, CallTheTarget(f), env);
    var d := b + CallTheTarget(f);
    CheckAppend(f, d, AfterDispatch(f), env);
    CheckAppend(f, d + AfterDispatch(f), AcceptReturn(f), env);
    CheckAppend(f, d + AfterDispatch(f) + AcceptReturn(f), [DROP_HANDLE, BrDone], env);
  }

  lemma CheckBody(f: InterceptedFunction, s: Strings, env: Env)
    requires Emittable(f, s) && Check(f, Allocate(f) + Marshal(f, s, |f.params|), env) && Check(f, LoopBody(f, s), env)
    ensures Check(f, Body(f, s), env)
  {
    hide LoopBody, Allocate, Marshal;
    assert CheckInstr(f, LoopI(LoopBody(f, s)), env);
    assert Check(f, [LoopI(LoopBody(f, s))], env);
    assert CheckInstr(f, Block([LoopI(LoopBody(f, s))]), env);
    assert Check(f, [Block([LoopI(LoopBody(f, s))])], env);
    hide Check;
    CheckAppend(f, Allocate(f) + Marshal(f, s, |f.params|), [Block([LoopI(LoopBody(f, s))])], env);
  }
}
