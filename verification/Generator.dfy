/** The interceptor generator: what it emits, and the code that emits it. */
module Generator {
  import opened Wrappers
  import opened Memory
  import opened Layouts
  import opened Signature
  import opened Protocol
  import opened CoreWasm

  /** Where a parameter's name and type name lie in the string data. */
  datatype ParamStrings = ParamStrings(nameOff: nat, nameLen: nat, typeOff: nat, typeLen: nat)

  /** Where one function's strings lie. */
  datatype Strings = Strings(fnameOff: nat, fnameLen: nat, params: seq<ParamStrings>)

  // ---- The emitted code, piece by piece --------------------------------------------------------

  function Field(offset: nat): Expr {
    Add(Get(ArgsArea), Const32(offset))
  }

  function MarshalHeader(s: ParamStrings, disc: nat, offset: nat): seq<Instr> {
    [StoreI(I32Store, 0, Field(offset), Const32(s.nameOff)),
     StoreI(I32Store, 4, Field(offset), Const32(s.nameLen)),
     StoreI(I32Store, 8, Field(offset), Const32(s.typeOff)),
     StoreI(I32Store, 12, Field(offset), Const32(s.typeLen)),
     StoreI(I32Store8, 16, Field(offset), Const32(disc))]
  }

  function MarshalPayload(disc: nat, flats: seq<WT>, offset: nat, core: nat): seq<Instr>
    requires DiscFits(disc, flats)
  {
    if disc == DISC_COMPLEX then
      [StoreI(I32Store, 24, Field(offset), Const32(0)), StoreI(I32Store, 28, Field(offset), Const32(0))]
    else if disc == DISC_STRING then
      [StoreI(I32Store, 24, Field(offset), GetParam(core)), StoreI(I32Store, 28, Field(offset), GetParam(core + 1))]
    else if disc == DISC_SIGNED then
      [StoreI(I64Store, 24, Field(offset), if flats[0].I32? then ExtendS(GetParam(core)) else GetParam(core))]
    else if disc == DISC_UNSIGNED then
      [StoreI(I64Store, 24, Field(offset), if flats[0].I32? then ExtendU(GetParam(core)) else GetParam(core))]
    else if disc == DISC_F32 then
      [StoreI(F32Store, 24, Field(offset), GetParam(core))]
    else if disc == DISC_F64 then
      [StoreI(F64Store, 24, Field(offset), GetParam(core))]
    else
      [StoreI(I64Store, 24, Field(offset), ExtendU(GetParam(core)))]
  }

  predicate Emittable(f: InterceptedFunction, s: Strings) {
    Consistent(f) && |s.params| == |f.params|
  }

  function MarshalRecord(f: InterceptedFunction, s: Strings, i: nat): seq<Instr>
    requires Emittable(f, s) && i < |f.params|
  {
    MarshalHeader(s.params[i], f.paramDiscs[i], i * 32)
    + MarshalPayload(f.paramDiscs[i], f.paramFlats[i], i * 32, FlatStart(f.paramFlats, i))
  }

  function Marshal(f: InterceptedFunction, s: Strings, n: nat): seq<Instr>
    requires Emittable(f, s) && n <= |f.params|
  {
    if n == 0 then [] else Marshal(f, s, n - 1) + MarshalRecord(f, s, n - 1)
  }

  function Allocate(f: InterceptedFunction): seq<Instr> {
    (if |f.params| > 0 then [SetAlloc(ArgsArea, |f.params| * 32)] else [])
    + [SetAlloc(BeforeRet, 32), SetAlloc(AfterRet, 32)]
    + (if f.usesRetarea then [SetAlloc(TargetRet, RetSize(f.resultFlats))] else [])
    + [Set(Watermark, Heap)]
  }

  const DROP_HANDLE: Instr := CallDrop(Get(Handle))

  function OnDisc(n: nat, code: seq<Instr>): Instr {
    If(Eq(Get(Disc), Const32(n)), code)
  }

  /** Loads a non-complex value from a return area's slot into the out local. */
  function UnwrapOut(disc: nat, flat: WT, retarea: bool, base: Local): seq<Instr> {
    if disc == DISC_COMPLEX then [Unreachable]
    else if retarea then
      [SetAlloc(Out, 8),
       StoreI(I32Store, 0, Get(Out), LoadE(I32Load, 24, Get(base))),
       StoreI(I32Store, 4, Get(Out), LoadE(I32Load, 28, Get(base)))]
    else if disc == DISC_F32 then [Set(Out, LoadE(F32Load, 24, Get(base)))]
    else if disc == DISC_F64 then [Set(Out, LoadE(F64Load, 24, Get(base)))]
    else if flat.I32? then [Set(Out, WrapI64(LoadE(I64Load, 24, Get(base))))]
    else [Set(Out, LoadE(I64Load, 24, Get(base)))]
  }

  function FirstFlat(f: InterceptedFunction): WT {
    if f.resultFlats == [] then I32 else f.resultFlats[0]
  }

  function SkipReturn(f: InterceptedFunction): seq<Instr> {
    match f.resultDisc
    case None => [OnDisc(1, [DROP_HANDLE, BrDone])]
    case Some(disc) =>
      [OnDisc(1,
              (if disc != DISC_COMPLEX
               then [If(Ne(LoadE(I32Load8U, 16, Get(BeforeRet)), Const32(disc)), [DROP_HANDLE, Unreachable])]
               else [])
              + UnwrapOut(disc, FirstFlat(f), f.usesRetarea, BeforeRet)
              + [DROP_HANDLE, BrDone])]
  }

  function AcceptReturn(f: InterceptedFunction): seq<Instr> {
    match f.resultDisc
    case None => []
    case Some(disc) =>
      [If(Ne(LoadE(I32Load8U, 16, Get(AfterRet)), Const32(disc)), [Unreachable])]
      + (if disc != DISC_COMPLEX then UnwrapOut(disc, FirstFlat(f), f.usesRetarea, AfterRet)
         else if f.usesRetarea then [Set(Out, Get(TargetRet))]
         else if f.resultFlats != [] then [Set(Out, Get(ResultVal))]
         else [])
  }

  /** The `pi`-th record of the list the advice proceeds with. */
  function ArgBase(pi: nat): Expr {
    Add(LoadE(I32Load, 8, Get(BeforeRet)), Const32(pi * 32))
  }

  function UnwrapPayload(pi: nat, disc: nat, flats: seq<WT>): seq<Instr>
    requires DiscFits(disc, flats)
  {
    if disc == DISC_COMPLEX then []
    else if disc == DISC_STRING then
      [Set(ArgPart(pi, 0), LoadE(I32Load, 24, ArgBase(pi))), Set(ArgPart(pi, 1), LoadE(I32Load, 28, ArgBase(pi)))]
    else if disc == DISC_F32 then [Set(ArgVal(pi), LoadE(F32Load, 24, ArgBase(pi)))]
    else if disc == DISC_F64 then [Set(ArgVal(pi), LoadE(F64Load, 24, ArgBase(pi)))]
    else if flats[0].I32? then [Set(ArgVal(pi), WrapI64(LoadE(I64Load, 24, ArgBase(pi))))]
    else [Set(ArgVal(pi), LoadE(I64Load, 24, ArgBase(pi)))]
  }

  function UnwrapParam(pi: nat, disc: nat, flats: seq<WT>): seq<Instr>
    requires DiscFits(disc, flats)
  {
    [If(Ne(LoadE(I32Load8U, 16, ArgBase(pi)), Const32(disc)), [Unreachable])] + UnwrapPayload(pi, disc, flats)
  }

  function Unwrap(f: InterceptedFunction, n: nat): seq<Instr>
    requires Consistent(f) && n <= |f.params|
  {
    if n == 0 then [] else
    Unwrap(f, n - 1) + UnwrapParam(n - 1, f.paramDiscs[n - 1], f.paramFlats[n - 1])
  }

  function CallArg(pi: nat, disc: nat, flats: seq<WT>, core: nat): (r: seq<Expr>)
    ensures |r| == |flats|
  {
    if disc == DISC_COMPLEX then seq(|flats|, (j: nat) => GetParam(core + j))
    else if |flats| == 1 then [Get(ArgVal(pi))]
    else seq(|flats|, (j: nat) => Get(ArgPart(pi, j)))
  }

  function CallArgs(f: InterceptedFunction, n: nat): seq<Expr>
    requires Consistent(f) && n <= |f.params|
  {
    if n == 0 then [] else
    CallArgs(f, n - 1) + CallArg(n - 1, f.paramDiscs[n - 1], f.paramFlats[n - 1], FlatStart(f.paramFlats, n - 1))
  }

  function LoadOf(t: WT): LoadOp {
    match t case I64 => I64Load case F64 => F64Load case F32 => F32Load case I32 => I32Load
  }

  function ResultLoads(f: InterceptedFunction, n: nat): seq<Instr>
    requires n <= |f.resultFlats|
  {
    if n == 0 then [] else
    ResultLoads(f, n - 1)
    + [Set(ResultPart(n - 1), LoadE(LoadOf(f.resultFlats[n - 1]), SlotOffset(f.resultFlats, n - 1), Get(TargetRet)))]
  }

  function CallTheTarget(f: InterceptedFunction): seq<Instr>
    requires Consistent(f)
  {
    if f.usesRetarea then
      [CallTarget(None, CallArgs(f, |f.params|) + [Get(TargetRet)])] + ResultLoads(f, |f.resultFlats|)
    else if f.result.Some? then [CallTarget(Some(ResultVal), CallArgs(f, |f.params|))]
    else [CallTarget(None, CallArgs(f, |f.params|))]
  }

  function CallTheAfter(f: InterceptedFunction): Instr {
    match f.resultDisc
    case None => CallAfter(Get(Handle), Const32(0), Const32(0), Const64(0), Const32(0), Get(AfterRet))
    case Some(disc) =>
      if disc == DISC_COMPLEX then
        CallAfter(Get(Handle), Const32(1), Const32(disc), Const64(0), Const32(0), Get(AfterRet))
      else if disc == DISC_STRING then
        CallAfter(Get(Handle), Const32(1), Const32(disc), ExtendU(Get(ResultPart(0))), Get(ResultPart(1)),
                  Get(AfterRet))
      else
        CallAfter(Get(Handle), Const32(1), Const32(disc),
                  if disc == DISC_F32 then ExtendU(ReinterpretF32(Get(ResultVal)))
                  else if disc == DISC_F64 then ReinterpretF64(Get(ResultVal))
                  else if !FirstFlat(f).I32? then Get(ResultVal)
                  else if disc == DISC_SIGNED then ExtendS(Get(ResultVal))
                  else ExtendU(Get(ResultVal)),
                  Const32(0), Get(AfterRet))
  }

  function Begin(f: InterceptedFunction, s: Strings): seq<Instr> {
    [SetHeap(Get(Watermark)),
     SetNew(Handle, Const32(s.fnameOff), Const32(s.fnameLen), Get(ArgsArea), Const32(|f.params|)),
     CallBefore(Get(Handle), Get(BeforeRet)),
     Set(Disc, LoadE(I32Load8U, 0, Get(BeforeRet))),
     OnDisc(2, [DROP_HANDLE, Unreachable])]
  }

  function AfterDispatch(f: InterceptedFunction): seq<Instr> {
    [CallTheAfter(f),
     Set(Disc, LoadE(I32Load8U, 0, Get(AfterRet))),
     OnDisc(2, [DROP_HANDLE, Unreachable]),
     OnDisc(1, [Set(ArgsArea, LoadE(I32Load, 8, Get(AfterRet))), DROP_HANDLE, BrRetry])]
  }

  function LoopBody(f: InterceptedFunction, s: Strings): seq<Instr>
    requires Emittable(f, s)
  {
    Begin(f, s) + SkipReturn(f) + Unwrap(f, |f.params|) + CallTheTarget(f) + AfterDispatch(f)
    + AcceptReturn(f) + [DROP_HANDLE, BrDone]
  }

  function Body(f: InterceptedFunction, s: Strings): seq<Instr>
    requires Emittable(f, s)
  {
    Allocate(f) + Marshal(f, s, |f.params|) + [Block([LoopI(LoopBody(f, s))])]
  }

  function ArgLocals(pi: nat, flats: seq<WT>): seq<(Local, WT)> {
    if |flats| == 1 then [(ArgVal(pi), flats[0])]
    else seq(|flats|, j requires 0 <= j < |flats| => (ArgPart(pi, j), flats[j]))
  }

  function AllArgLocals(paramFlats: seq<seq<WT>>, n: nat): seq<(Local, WT)>
    requires n <= |paramFlats|
  {
    if n == 0 then [] else AllArgLocals(paramFlats, n - 1) + ArgLocals(n - 1, paramFlats[n - 1])
  }

  function FixedLocals(f: InterceptedFunction): seq<(Local, WT)> {
    [(ArgsArea, I32), (Handle, I32), (BeforeRet, I32), (AfterRet, I32), (Disc, I32), (Watermark, I32)]
    + (if f.usesRetarea then [(TargetRet, I32), (Out, I32)]
       else if f.resultFlats != [] then [(ResultVal, f.resultFlats[0]), (Out, f.resultFlats[0])]
       else [])
  }

  function ResultLocals(flats: seq<WT>): seq<(Local, WT)> {
    seq(|flats|, j requires 0 <= j < |flats| => (ResultPart(j), flats[j]))
  }

  function Locals(f: InterceptedFunction): seq<(Local, WT)> {
    FixedLocals(f) + AllArgLocals(f.paramFlats, |f.paramFlats|)
      + (if f.usesRetarea then ResultLocals(f.resultFlats) else [])
  }

  /** The whole interceptor of one function. */
  function Interceptor(f: InterceptedFunction, s: Strings): Func
    requires Emittable(f, s)
  {
    Func(f.coreParamsLift, f.coreResultsLift, Locals(f), Body(f, s), if f.coreResultsLift != [] then [Get(Out)] else [])
  }

  // ---- The code that emits it ---------------------------------------------------------------------

  /** The text under construction. */
  class Wat {
    var code: seq<Instr>

    constructor ()
      ensures code == []
    {
      code := [];
    }

    method Push(i: Instr)
      modifies this
      ensures code == old(code) + [i]
    {
      code := code + [i];
    }
  }

  method WriteMarshalParam(wat: Wat, disc: nat, flats: seq<WT>, offset: nat, core: nat) returns (next: nat)
    requires DiscFits(disc, flats)
    modifies wat
    ensures wat.code == old(wat.code) + MarshalPayload(disc, flats, offset, core)
    ensures next == core + |flats|
  {
    if disc != DISC_COMPLEX {
      match disc {
        case 0 =>
          wat.Push(StoreI(I32Store, 24, Field(offset), GetParam(core)));
          wat.Push(StoreI(I32Store, 28, Field(offset), GetParam(core + 1)));
          next := core + 2;
        case 1 =>
          if flats[0] == I32 {
            wat.Push(StoreI(I64Store, 24, Field(offset), ExtendS(GetParam(core))));
          } else {
            wat.Push(StoreI(I64Store, 24, Field(offset), GetParam(core)));
          }
          next := core + 1;
        case 2 =>
          if flats[0] == I32 {
            wat.Push(StoreI(I64Store, 24, Field(offset), ExtendU(GetParam(core))));
          } else {
            wat.Push(StoreI(I64Store, 24, Field(offset), GetParam(core)));
          }
          next := core + 1;
        case 3 =>
          wat.Push(StoreI(F32Store, 24, Field(offset), GetParam(core)));
          next := core + 1;
        case 4 =>
          wat.Push(StoreI(F64Store, 24, Field(offset), GetParam(core)));
          next := core + 1;
        case _ =>
          wat.Push(StoreI(I64Store, 24, Field(offset), ExtendU(GetParam(core))));
          next := core + 1;
      }
    } else {
      wat.Push(StoreI(I32Store, 24, Field(offset), Const32(0)));
      wat.Push(StoreI(I32Store, 28, Field(offset), Const32(0)));
      next := core + |flats|;
    }
  }

  lemma FlatStartStep<T>(groups: seq<seq<T>>, i: nat)
    requires i < |groups|
    ensures FlatStart(groups, i + 1) == FlatStart(groups, i) + |groups[i]|
    ensures Concat(groups[..i + 1]) == Concat(groups[..i]) + groups[i]
  {
    assert groups[..i + 1][..i] == groups[..i];
  }

  method WriteMarshalHeader(wat: Wat, entry: ParamStrings, disc: nat, offset: nat)
    modifies wat
    ensures wat.code == old(wat.code) + MarshalHeader(entry, disc, offset)
  {
    wat.Push(StoreI(I32Store, 0, Field(offset), Const32(entry.nameOff)));
    wat.Push(StoreI(I32Store, 4, Field(offset), Const32(entry.nameLen)));
    wat.Push(StoreI(I32Store, 8, Field(offset), Const32(entry.typeOff)));
    wat.Push(StoreI(I32Store, 12, Field(offset), Const32(entry.typeLen)));
    wat.Push(StoreI(I32Store8, 16, Field(offset), Const32(disc)));
  }

  /** Writes every argument record; the running core index is always the sum of the flats before it. */
  method WriteMarshal(wat: Wat, f: InterceptedFunction, s: Strings)
    requires Emittable(f, s)
    modifies wat
    ensures wat.code == old(wat.code) + Marshal(f, s, |f.params|)
  {
    var core := 0;
    ghost var start := wat.code;
    for pi := 0 to |s.params|
      invariant core == FlatStart(f.paramFlats, pi)
      invariant wat.code == start + Marshal(f, s, pi)
    {
      WriteMarshalHeader(wat, s.params[pi], f.paramDiscs[pi], pi * 32);
      core := WriteMarshalParam(wat, f.paramDiscs[pi], f.paramFlats[pi], pi * 32, core);
      FlatStartStep(f.paramFlats, pi);
      assert wat.code == start + (Marshal(f, s, pi) + MarshalRecord(f, s, pi)) by {
        Regroup3(start, Marshal(f, s, pi), MarshalHeader(s.params[pi], f.paramDiscs[pi], pi * 32),
                 MarshalPayload(f.paramDiscs[pi], f.paramFlats[pi], pi * 32, FlatStart(f.paramFlats, pi)));
      }
    }
  }

  lemma Regroup3<T>(a: seq<T>, b: seq<T>, c: seq<T>, d: seq<T>)
    ensures a + b + c + d == a + (b + (c + d))
  {
  }

  method WriteUnwrapParam(wat: Wat, pi: nat, disc: nat, flats: seq<WT>)
    requires DiscFits(disc, flats)
    modifies wat
    ensures wat.code == old(wat.code) + UnwrapParam(pi, disc, flats)
  {
    wat.Push(If(Ne(LoadE(I32Load8U, 16, ArgBase(pi)), Const32(disc)), [Unreachable]));
    if disc == DISC_STRING {
      wat.Push(Set(ArgPart(pi, 0), LoadE(I32Load, 24, ArgBase(pi))));
      wat.Push(Set(ArgPart(pi, 1), LoadE(I32Load, 28, ArgBase(pi))));
    } else if disc == DISC_F32 {
      wat.Push(Set(ArgVal(pi), LoadE(F32Load, 24, ArgBase(pi))));
    } else if disc == DISC_F64 {
      wat.Push(Set(ArgVal(pi), LoadE(F64Load, 24, ArgBase(pi))));
    } else if disc != DISC_COMPLEX {
      if flats[0] == I32 {
        wat.Push(Set(ArgVal(pi), WrapI64(LoadE(I64Load, 24, ArgBase(pi)))));
      } else {
        wat.Push(Set(ArgVal(pi), LoadE(I64Load, 24, ArgBase(pi))));
      }
    }
  }

  /** One parameter's share of the target call: unwrapped locals, or the caller's own flats. */
  method WriteCallArg(pi: nat, disc: nat, flats: seq<WT>, core: nat) returns (args: seq<Expr>, next: nat)
    ensures args == CallArg(pi, disc, flats, core)
    ensures next == core + |flats|
  {
    args, next := [], core;
    if disc != DISC_COMPLEX {
      if |flats| == 1 {
        args := [Get(ArgVal(pi))];
      } else {
        for j := 0 to |flats|
          invariant args == CallArg(pi, disc, flats, core)[..j]
        {
          args := args + [Get(ArgPart(pi, j))];
        }
      }
      next := core + |flats|;
    } else {
      for j := 0 to |flats|
        invariant next == core + j
        invariant args == CallArg(pi, disc, flats, core)[..j]
      {
        args := args + [GetParam(next)];
        next := next + 1;
      }
    }
  }

  method WriteResultLoads(wat: Wat, f: InterceptedFunction)
    modifies wat
    ensures wat.code == old(wat.code) + ResultLoads(f, |f.resultFlats|)
  {
    ghost var start := wat.code;
    var byteOffset := 0;
    for j := 0 to |f.resultFlats|
      invariant byteOffset == AreaEnd(f.resultFlats, j)
      invariant wat.code == start + ResultLoads(f, j)
    {
      var size := f.resultFlats[j].Size();
      byteOffset := AlignUp(byteOffset, size);
      wat.Push(Set(ResultPart(j), LoadE(LoadOf(f.resultFlats[j]), byteOffset, Get(TargetRet))));
      byteOffset := byteOffset + size;
    }
  }

  method WriteUnwrap(wat: Wat, f: InterceptedFunction)
    requires Consistent(f)
    modifies wat
    ensures wat.code == old(wat.code) + Unwrap(f, |f.params|)
  {
    hide Flatten, DiscFits, Concat, UnwrapParam;
    ghost var start := wat.code;
    for pi := 0 to |f.paramDiscs|
      invariant wat.code == start + Unwrap(f, pi)
    {
      WriteUnwrapParam(wat, pi, f.paramDiscs[pi], f.paramFlats[pi]);
    }
  }

  method BuildCallArgs(f: InterceptedFunction) returns (args: seq<Expr>)
    requires Consistent(f)
    ensures args == CallArgs(f, |f.params|)
  {
    args := [];
    var core := 0;
    for pi := 0 to |f.paramDiscs|
      invariant core == FlatStart(f.paramFlats, pi)
      invariant args == CallArgs(f, pi)
    {
      var more, next := WriteCallArg(pi, f.paramDiscs[pi], f.paramFlats[pi], core);
      args, core := args + more, next;
      FlatStartStep(f.paramFlats, pi);
    }
  }

  method WriteProceedAndCallTarget(wat: Wat, f: InterceptedFunction)
    requires Consistent(f)
    modifies wat
    ensures wat.code == old(wat.code) + Unwrap(f, |f.params|) + CallTheTarget(f)
  {
    hide Consistent, Unwrap, CallArgs, ResultLoads;
    WriteUnwrap(wat, f);
    var args := BuildCallArgs(f);
    if f.usesRetarea {
      wat.Push(CallTarget(None, args + [Get(TargetRet)]));
      WriteResultLoads(wat, f);
    } else if f.result.Some? {
      wat.Push(CallTarget(Some(ResultVal), args));
    } else {
      wat.Push(CallTarget(None, args));
    }
  }

  method WriteUnwrapValueToOut(wat: Wat, disc: nat, flat: WT, retarea: bool, base: Local)
    modifies wat
    ensures wat.code == old(wat.code) + UnwrapOut(disc, flat, retarea, base)
  {
    if disc == DISC_COMPLEX {
      wat.Push(Unreachable);
    } else if retarea {
      wat.Push(SetAlloc(Out, 8));
      wat.Push(StoreI(I32Store, 0, Get(Out), LoadE(I32Load, 24, Get(base))));
      wat.Push(StoreI(I32Store, 4, Get(Out), LoadE(I32Load, 28, Get(base))));
    } else if disc == DISC_F32 {
      wat.Push(Set(Out, LoadE(F32Load, 24, Get(base))));
    } else if disc == DISC_F64 {
      wat.Push(Set(Out, LoadE(F64Load, 24, Get(base))));
    } else if flat == I32 {
      wat.Push(Set(Out, WrapI64(LoadE(I64Load, 24, Get(base)))));
    } else {
      wat.Push(Set(Out, LoadE(I64Load, 24, Get(base))));
    }
  }

  method WriteSkipReturn(wat: Wat, f: InterceptedFunction)
    modifies wat
    ensures wat.code == old(wat.code) + SkipReturn(f)
  {
    var inner := new Wat();
    if f.resultDisc.Some? {
      var disc := f.resultDisc.value;
      if disc != DISC_COMPLEX {
        inner.Push(If(Ne(LoadE(I32Load8U, 16, Get(BeforeRet)), Const32(disc)), [DROP_HANDLE, Unreachable]));
      }
      WriteUnwrapValueToOut(inner, disc, FirstFlat(f), f.usesRetarea, BeforeRet);
    }
    inner.Push(DROP_HANDLE);
    inner.Push(BrDone);
    assert f.resultDisc.None? ==> inner.code == [DROP_HANDLE, BrDone];
    assert f.resultDisc.Some? ==>
        inner.code == (if f.resultDisc.value != DISC_COMPLEX
                       then [If(Ne(LoadE(I32Load8U, 16, Get(BeforeRet)), Const32(f.resultDisc.value)),
                                [DROP_HANDLE, Unreachable])]
                       else [])
                      + UnwrapOut(f.resultDisc.value, FirstFlat(f), f.usesRetarea, BeforeRet) + [DROP_HANDLE, BrDone];
    wat.Push(OnDisc(1, inner.code));
  }

  method WriteAcceptReturn(wat: Wat, f: InterceptedFunction)
    modifies wat
    ensures wat.code == old(wat.code) + AcceptReturn(f)
  {
    if f.resultDisc.Some? {
      var disc := f.resultDisc.value;
      wat.Push(If(Ne(LoadE(I32Load8U, 16, Get(AfterRet)), Const32(disc)), [Unreachable]));
      if disc != DISC_COMPLEX {
        WriteUnwrapValueToOut(wat, disc, FirstFlat(f), f.usesRetarea, AfterRet);
      } else if f.usesRetarea {
        wat.Push(Set(Out, Get(TargetRet)));
      } else if f.resultFlats != [] {
        wat.Push(Set(Out, Get(ResultVal)));
      }
    }
  }

  /** The size of the return area, component by component. */
  method MeasureRetarea(flats: seq<WT>) returns (size: nat)
    ensures size == RetSize(flats)
  {
    size := 0;
    for j := 0 to |flats|
      invariant size == AreaEnd(flats, j)
    {
      size := AlignUp(size, flats[j].Size());
      size := size + flats[j].Size();
    }
  }

  method DeclareArgLocals(paramFlats: seq<seq<WT>>) returns (locals: seq<(Local, WT)>)
    ensures locals == AllArgLocals(paramFlats, |paramFlats|)
  {
    locals := [];
    for pi := 0 to |paramFlats|
      invariant locals == AllArgLocals(paramFlats, pi)
    {
      locals := locals + ArgLocals(pi, paramFlats[pi]);
    }
  }

  method DeclareLocals(f: InterceptedFunction) returns (locals: seq<(Local, WT)>)
    ensures locals == Locals(f)
  {
    locals := FixedLocals(f);
    var args := DeclareArgLocals(f.paramFlats);
    locals := locals + args;
    if f.usesRetarea {
      locals := locals + ResultLocals(f.resultFlats);
    }
    assert locals == FixedLocals(f) + args + (if f.usesRetarea then ResultLocals(f.resultFlats) else []);
  }

  method WriteAllocate(wat: Wat, f: InterceptedFunction)
    modifies wat
    ensures wat.code == old(wat.code) + Allocate(f)
  {
    if |f.params| > 0 {
      wat.Push(SetAlloc(ArgsArea, |f.params| * 32));
    }
    wat.Push(SetAlloc(BeforeRet, 32));
    wat.Push(SetAlloc(AfterRet, 32));
    if f.usesRetarea {
      var size := MeasureRetarea(f.resultFlats);
      wat.Push(SetAlloc(TargetRet, size));
    }
    wat.Push(Set(Watermark, Heap));
  }

  method WriteBegin(wat: Wat, f: InterceptedFunction, s: Strings)
    modifies wat
    ensures wat.code == old(wat.code) + Begin(f, s)
  {
    wat.Push(SetHeap(Get(Watermark)));
    wat.Push(SetNew(Handle, Const32(s.fnameOff), Const32(s.fnameLen), Get(ArgsArea), Const32(|f.params|)));
    wat.Push(CallBefore(Get(Handle), Get(BeforeRet)));
    wat.Push(Set(Disc, LoadE(I32Load8U, 0, Get(BeforeRet))));
    wat.Push(OnDisc(2, [DROP_HANDLE, Unreachable]));
  }

  method WriteAfterDispatch(wat: Wat, f: InterceptedFunction)
    modifies wat
    ensures wat.code == old(wat.code) + AfterDispatch(f)
  {
    wat.Push(CallTheAfter(f));
    wat.Push(Set(Disc, LoadE(I32Load8U, 0, Get(AfterRet))));
    wat.Push(OnDisc(2, [DROP_HANDLE, Unreachable]));
    wat.Push(OnDisc(1, [Set(ArgsArea, LoadE(I32Load, 8, Get(AfterRet))), DROP_HANDLE, BrRetry]));
  }

  lemma Regroup7<T>(b: seq<T>, s: seq<T>, u: seq<T>, c: seq<T>, a: seq<T>, r: seq<T>, d: T, e: T)
    ensures [] + b + s + u + c + a + r + [d] + [e] == b + s + u + c + a + r + [d, e]
  {
  }

  method WriteLoop(f: InterceptedFunction, s: Strings) returns (body: seq<Instr>)
    requires Emittable(f, s)
    ensures body == LoopBody(f, s)
  {
    var wat := new Wat();
    WriteBegin(wat, f, s);
    WriteSkipReturn(wat, f);
    WriteProceedAndCallTarget(wat, f);
    WriteAfterDispatch(wat, f);
    WriteAcceptReturn(wat, f);
    wat.Push(DROP_HANDLE);
    wat.Push(BrDone);
    body := wat.code;
    Regroup7(Begin(f, s), SkipReturn(f), Unwrap(f, |f.params|), CallTheTarget(f), AfterDispatch(f), AcceptReturn(f),
             DROP_HANDLE, BrDone);
  }

  /** Emits the interceptor of one function. */
  method WriteInterceptorFunc(f: InterceptedFunction, s: Strings) returns (out: Func)
    requires Emittable(f, s)
    ensures out == Interceptor(f, s)
  {
    hide Allocate, Marshal, LoopBody, Locals, Consistent;
    var locals := DeclareLocals(f);
    var wat := new Wat();
    WriteAllocate(wat, f);
    WriteMarshal(wat, f, s);
    var loop := WriteLoop(f, s);
    wat.Push(Block([LoopI(loop)]));
    assert [] + Allocate(f) + Marshal(f, s, |f.params|) + [Block([LoopI(loop)])] == Body(f, s);
    out := Func(f.coreParamsLift, f.coreResultsLift, locals, wat.code, if f.coreResultsLift != [] then [Get(Out)]
                else []);
  }
}
