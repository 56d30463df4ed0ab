/**
 * What advice is shown, may answer, and hands on, told from the types of the intercepted WIT function alone. The
 * derived record's tags and core types do not occur in these statements.
 */
module SourceTypes {
  import opened Wrappers
  import opened Memory
  import opened Layouts
  import opened Signature
  import opened Protocol
  import Decimals

  /** A type with its aliases followed to the end. */
  function Resolved(ty: Ty): Ty {
    if ty.Id? && ty.def.kind.Alias? then Resolved(ty.def.kind.inner) else ty
  }

  predicate IsSigned(ty: Ty) {
    ty.S8? || ty.S16? || ty.S32? || ty.S64?
  }

  /** A character is its code point. */
  predicate IsUnsigned(ty: Ty) {
    ty.U8? || ty.U16? || ty.U32? || ty.U64? || ty.Char?
  }

  /** A type whose values the advice protocol does not carry. */
  predicate IsCompound(ty: Ty) {
    ty.Id? || ty.ErrorContext?
  }

  /** A type with one core value that the advice protocol carries. */
  predicate IsScalar(ty: Ty) {
    !IsCompound(ty) && !ty.Text?
  }

  /** How many numbers the core value of an integer tells apart. */
  function Modulus(ty: Ty): nat {
    if ty.S64? || ty.U64? then T64 else T32
  }

  /** The kind of value that stands at a position of this type. */
  predicate Admits(ty: Ty, v: Value) {
    if IsSigned(ty) then v.Signed?
    else if IsUnsigned(ty) then v.Unsigned?
    else if ty.Bool? then v.Boolean?
    else if ty.Float32? then v.Single?
    else if ty.Float64? then v.Double?
    else if ty.Text? then v.Str?
    else v.Complex?
  }

  /** The core value of a scalar: two's complement, 0 or 1, or a float's bits. */
  function CoreOf(ty: Ty, v: Value): nat
    requires IsScalar(ty) && Admits(ty, v)
  {
    match v
    case Signed(x) => x % Modulus(ty)
    case Unsigned(u) => u % Modulus(ty)
    case Boolean(b) => if b then 1 else 0
    case Single(bits) => bits
    case Double(bits) => bits
  }

  /** A scalar that a variable of the type holds, as far as its core value goes. */
  predicate InRange(ty: Ty, v: Value) {
    match v
    case Signed(x) => -(Modulus(ty) / 2) <= x < Modulus(ty) / 2
    case Unsigned(u) => u < Modulus(ty)
    case _ => true
  }

  /** A scalar as advice can write it: numbers of 64 bits, floats of their own width. */
  predicate Writable(v: Value) {
    match v
    case Signed(x) => -(T64 / 2) <= x < T64 / 2
    case Unsigned(u) => u < T64
    case Single(bits) => bits < T32
    case Double(bits) => bits < T64
    case _ => true
  }

  /** Core values `orig` of a type and the value advice knows them as. */
  predicate Denotes(ty: Ty, orig: seq<nat>, mem: Mem, v: Value) {
    && Admits(ty, v)
    && if IsScalar(ty) then InRange(ty, v) && orig == [CoreOf(ty, v)]
       else if ty.Text? then |orig| == 2 && TextAt(mem, orig[0], orig[1]) == Some(v.text)
       else v == Complex([])
  }

  lemma Residue(x: int, m: nat)
    requires (m == T32 || m == T64) && -(m / 2) <= x < m / 2
    ensures x % m == if x < 0 then x + m else x
  {
  }

  /** Core values denote one value at most. */
  lemma DenotesOne(ty: Ty, orig: seq<nat>, mem: Mem, v: Value, w: Value)
    requires Denotes(ty, orig, mem, v) && Denotes(ty, orig, mem, w)
    ensures v == w
  {
    if IsScalar(ty) {
      assert [CoreOf(ty, v)][0] == [CoreOf(ty, w)][0];
      if IsSigned(ty) {
        Residue(v.x, Modulus(ty));
        Residue(w.x, Modulus(ty));
      }
    }
  }

  /** Following aliases changes neither a type's core values nor its tag. */
  lemma {:induction false} ResolvedSame(ty: Ty)
    ensures LayoutOf(Resolved(ty)) == LayoutOf(ty) && ValueDiscriminant(Resolved(ty)) == ValueDiscriminant(ty)
    ensures Resolved(ty).Id? ==> !Resolved(ty).def.kind.Alias?
  {
    if ty.Id? && ty.def.kind.Alias? {
      ResolvedSame(ty.def.kind.inner);
    }
  }

  /** A value that is no junk has the tag of just the types it may stand for. */
  lemma TagAdmits(ty: Ty, v: Value)
    requires !v.Junk?
    ensures Tag(v) == ValueDiscriminant(ty) <==> Admits(Resolved(ty), v)
  {
    ResolvedSame(ty);
  }

  /** The one core type of a scalar. */
  lemma ScalarCore(ty: Ty)
    requires IsScalar(Resolved(ty))
    ensures |Flatten(ty)| == 1
    ensures var core, t := Flatten(ty)[0], Resolved(ty);
            && (IsSigned(t) || IsUnsigned(t) ==> (core.I32? || core.I64?) && Span(core) == Modulus(t))
            && (t.Bool? ==> core.I32?) && (t.Float32? ==> core.F32?) && (t.Float64? ==> core.F64?)
  {
    ResolvedSame(ty);
  }

  /** The value advice is shown for a scalar's core value. */
  lemma FromCoreDenotes(ty: Ty, bits: nat)
    requires IsScalar(Resolved(ty)) && |Flatten(ty)| == 1 && CoreFits(ValueDiscriminant(ty), Flatten(ty)[0], bits)
    ensures Denotes(Resolved(ty), [bits], [], FromCore(ValueDiscriminant(ty), Flatten(ty)[0], bits))
  {
    ScalarCore(ty);
    ResolvedSame(ty);
    hide Flatten, LayoutOf, Resolved;
    var t := Resolved(ty);
    if IsSigned(t) {
      var n: int := if bits < Modulus(t) / 2 then bits else bits - Modulus(t);
      assert n % Modulus(t) == bits;
      NumberShown(n, Flatten(ty)[0]);
    }
  }

  /** The core value that a scalar of advice goes on as. */
  lemma ToCoreOf(ty: Ty, v: Value)
    requires IsScalar(Resolved(ty)) && |Flatten(ty)| == 1 && Admits(Resolved(ty), v) && Writable(v)
    ensures ToCore(Flatten(ty)[0], v) == CoreOf(Resolved(ty), v)
  {
    ScalarCore(ty);
    hide Flatten, Resolved;
    if v.Signed? {
      NumberGiven(v.x, Flatten(ty)[0]);
    } else if v.Unsigned? {
      NumberGiven(v.u, Flatten(ty)[0]);
    }
  }

  // ---- A whole call -------------------------------------------------------------------------------------------

  /** A call of a function that can be intercepted: its core values in range, its texts inside memory. */
  ghost predicate Called(fn: WitFunction, orig: seq<seq<nat>>, mem: Mem) {
    && Derive(fn).Success?
    && Consistent(Derive(fn).value)
    && OrigFits(Derive(fn).value, orig, mem, |mem|)
  }

  /** What the derived record keeps of each parameter. */
  lemma DerivedParam(fn: WitFunction, i: nat)
    requires Derive(fn).Success? && i < |fn.params|
    ensures var f := Derive(fn).value;
            && f.params == fn.params && |f.paramFlats| == |f.paramDiscs| == |fn.params|
            && f.paramFlats[i] == Flatten(fn.params[i].ty)
            && f.paramDiscs[i] == ValueDiscriminant(fn.params[i].ty)
  {
    hide Flatten;
    AllFlatsAre(fn.params, i);
  }

  /** What it keeps of the result. */
  lemma DerivedResult(fn: WitFunction)
    requires Derive(fn).Success?
    ensures var f := Derive(fn).value;
            && (fn.result.None? ==> f.resultDisc.None? && f.resultFlats == [])
            && (fn.result.Some? ==> f.resultDisc == Some(ValueDiscriminant(fn.result.value))
                                    && f.resultFlats == Flatten(fn.result.value))
            && f.usesRetarea == (|f.resultFlats| > MAX_FLAT_RESULTS)
  {
    hide Flatten;
  }

  /**
   * Each argument is shown under its parameter's name, as the one value of the parameter's source type that its
   * core values denote.
   */
  lemma ArgumentShown(fn: WitFunction, orig: seq<seq<nat>>, mem: Mem, i: nat)
    requires Called(fn, orig, mem) && i < |fn.params|
    ensures var arg := AllShown(Derive(fn).value, orig, mem)[i];
            && arg.name == fn.params[i].name
            && Denotes(Resolved(fn.params[i].ty), orig[i], mem, arg.value)
            && forall v :: Denotes(Resolved(fn.params[i].ty), orig[i], mem, v) ==> v == arg.value
  {
    var f := Derive(fn).value;
    DerivedParam(fn, i);
    hide Derive, Consistent;
    var arg := AllShown(f, orig, mem)[i];
    assert arg == Shown(fn.params[i], f.paramDiscs[i], f.paramFlats[i], orig[i], mem);
    ShownDenotes(fn.params[i], orig[i], mem);
    hide *;
    forall v | Denotes(Resolved(fn.params[i].ty), orig[i], mem, v)
      ensures v == arg.value
    {
      DenotesOne(Resolved(fn.params[i].ty), orig[i], mem, v, arg.value);
    }
  }

  lemma ShownDenotes(p: Param, orig: seq<nat>, mem: Mem)
    requires |orig| == |Flatten(p.ty)|
    requires forall j :: 0 <= j < |orig| ==> CoreFits(ValueDiscriminant(p.ty), Flatten(p.ty)[j], orig[j])
    requires ValueDiscriminant(p.ty) == DISC_STRING ==> |orig| == 2 && orig[0] + orig[1] <= |mem|
    requires DiscFits(ValueDiscriminant(p.ty), Flatten(p.ty))
    ensures Shown(p, ValueDiscriminant(p.ty), Flatten(p.ty), orig, mem).name == p.name
    ensures Denotes(Resolved(p.ty), orig, mem, Shown(p, ValueDiscriminant(p.ty), Flatten(p.ty), orig, mem).value)
  {
    ResolvedSame(p.ty);
    if IsScalar(Resolved(p.ty)) {
      ScalarCore(p.ty);
      hide Flatten, LayoutOf, Resolved;
      FromCoreDenotes(p.ty, orig[0]);
      assert orig == [orig[0]];
      hide FromCore;
    }
  }

  /** Whether the advice's arguments have the kinds asked for is a matter of the source types. */
  lemma ArgumentsAdmitted(fn: WitFunction, args: seq<Arg>)
    requires Derive(fn).Success? && |args| == |fn.params| == |Derive(fn).value.paramDiscs|
    requires forall i :: 0 <= i < |args| ==> !args[i].value.Junk?
    ensures KindsMatch(Derive(fn).value, args) <==>
            forall i :: 0 <= i < |args| ==> Admits(Resolved(fn.params[i].ty), args[i].value)
  {
    hide Derive, Admits, Tag, Resolved, ValueDiscriminant;
    forall i | 0 <= i < |args|
      ensures Tag(args[i].value) == Derive(fn).value.paramDiscs[i] <==> Admits(Resolved(fn.params[i].ty), args[i].value)
    {
      DerivedParam(fn, i);
      TagAdmits(fn.params[i].ty, args[i].value);
    }
  }

  /** The target gets the value advice gave for each position it may change, and the caller's own for any other. */
  lemma ArgumentGiven(fn: WitFunction, orig: seq<seq<nat>>, mem: Mem, args: seq<Arg>, i: nat)
    requires Called(fn, orig, mem) && i < |args| == |fn.params|
    requires Admits(Resolved(fn.params[i].ty), args[i].value) && Writable(args[i].value)
    ensures TargetArgs(Derive(fn).value, args, orig)[i] ==
              var ty, v := Resolved(fn.params[i].ty), args[i].value;
              if IsScalar(ty) then CoreArg([CoreOf(ty, v)])
              else if ty.Text? then TextArg(Some(v.text))
              else CoreArg(orig[i])
  {
    var f, ty := Derive(fn).value, fn.params[i].ty;
    DerivedParam(fn, i);
    hide Derive, Consistent, OrigFits;
    assert TargetArgs(f, args, orig)[i] == TargetArgOf(f.paramDiscs[i], f.paramFlats[i], args[i].value, orig[i]);
    ResolvedSame(ty);
    if IsScalar(Resolved(ty)) {
      ScalarCore(ty);
      ToCoreOf(ty, args[i].value);
      hide Flatten, LayoutOf, Resolved, ToCore;
    }
  }

  /** Advice is told the value of the result's source type that the target's answer denotes. */
  lemma ResultTold(fn: WitFunction, r: TargetResult)
    requires Derive(fn).Success? && ResultFits(Derive(fn).value, r)
    ensures var told := Told(Derive(fn).value, r);
            && (fn.result.None? ==> told == None)
            && (fn.result.Some? ==>
                  var ty := Resolved(fn.result.value);
                  && told.Some?
                  && (IsScalar(ty) ==> r.Scalar? && Denotes(ty, [r.bits], [], told.value))
                  && (ty.Text? ==> r.TextResult? && told.value == Str(r.text))
                  && (IsCompound(ty) ==> told.value == Complex([])))
  {
    DerivedResult(fn);
    hide Derive;
    if fn.result.Some? {
      var ty := fn.result.value;
      ResolvedSame(ty);
      if IsScalar(Resolved(ty)) {
        ScalarCore(ty);
        FromCoreDenotes(ty, r.bits);
      }
    }
  }

  lemma ResultTag(fn: WitFunction, v: Value)
    requires Derive(fn).Success? && !v.Junk?
    ensures fn.result.None? <==> Derive(fn).value.resultDisc.None?
    ensures fn.result.Some? ==>
              var disc, ty := Derive(fn).value.resultDisc.value, Resolved(fn.result.value);
              (Tag(v) == disc <==> Admits(ty, v)) && (disc == DISC_COMPLEX <==> IsCompound(ty))
  {
    DerivedResult(fn);
    hide Derive;
    if fn.result.Some? {
      TagAdmits(fn.result.value, v);
      ResolvedSame(fn.result.value);
    }
  }

  /**
   * A value that advice skips with is returned just when it has the kind of the result's source type; a compound
   * result cannot be made up, and without a result nothing is returned. `trace` is what went on in earlier rounds.
   */
  lemma SkipReturned(fn: WitFunction, orig: seq<seq<nat>>, mem: Mem, args: seq<Arg>, script: seq<Reply>,
                     trace: seq<Event>)
    requires Called(fn, orig, mem) && |args| == |fn.params|
    requires |script| >= 2 && script[0].NewReply? && script[1].BeforeReply?
    requires script[1].before.Skip? && !script[1].before.slot.Junk?
    ensures var o, v := Loop(Derive(fn).value, orig, args, script, trace), script[1].before.slot;
            if fn.result.None? then o.Done? && o.ret == Void
            else if IsCompound(Resolved(fn.result.value)) then o.Trapped?
            else if Admits(Resolved(fn.result.value), v) then o.Done? && o.ret == Given(v)
            else o.Trapped?
  {
    hide Derive, OrigFits, Consistent, KindsMatch, TargetArgs, Told, Admits, Tag, Resolved, IsCompound;
    ResultTag(fn, script[1].before.slot);
  }

  /**
   * A value that advice accepts with needs the kind of the result's source type; it is returned then, except that
   * for a compound result the target's own answer is.
   */
  lemma AcceptReturned(fn: WitFunction, orig: seq<seq<nat>>, mem: Mem, args: seq<Arg>, script: seq<Reply>,
                       trace: seq<Event>)
    requires Called(fn, orig, mem) && |args| == |fn.params|
    requires |script| >= 4 && script[0].NewReply? && script[1].BeforeReply? && script[2].TargetReply?
              && script[3].AfterReply?
    requires script[1].before.Proceed? && |script[1].before.args| == |args|
    requires KindsMatch(Derive(fn).value, script[1].before.args)
    requires script[3].after.Accept? && !script[3].after.slot.Junk?
    ensures var o, v := Loop(Derive(fn).value, orig, args, script, trace), script[3].after.slot;
            if fn.result.None? then o.Done? && o.ret == Void
            else if !Admits(Resolved(fn.result.value), v) then o.Trapped?
            else if IsCompound(Resolved(fn.result.value)) then o.Done? && o.ret == FromTarget(script[2].result)
            else o.Done? && o.ret == Given(v)
  {
    hide Derive, OrigFits, Consistent, KindsMatch, TargetArgs, Told, Admits, Tag, Resolved, IsCompound;
    ResultTag(fn, script[3].after.slot);
  }

  /** What the caller gets for a returned scalar is that very value. */
  lemma ResultGiven(fn: WitFunction, v: Value)
    requires Derive(fn).Success? && fn.result.Some? && IsScalar(Resolved(fn.result.value))
    requires Admits(Resolved(fn.result.value), v) && Writable(v)
    ensures |Derive(fn).value.resultFlats| == 1
    ensures ToCore(Derive(fn).value.resultFlats[0], v) == CoreOf(Resolved(fn.result.value), v)
  {
    DerivedResult(fn);
    ScalarCore(fn.result.value);
    hide Derive;
    ToCoreOf(fn.result.value, v);
  }

  // ---- Type names ---------------------------------------------------------------------------------------------

  /** The first letter of a number's type. */
  function Letter(ty: Ty): string
    requires IsScalar(ty)
  {
    if IsSigned(ty) then "s" else if IsUnsigned(ty) then "u" else "f"
  }

  /**
   * A named type is shown under its own name, an unnamed alias under the name of what it stands for, and a number
   * under the letter of the kind advice sees it as and its width in bits.
   */
  lemma TypeNameShown(fn: WitFunction, orig: seq<seq<nat>>, mem: Mem, i: nat)
    requires Called(fn, orig, mem) && i < |fn.params|
    ensures var ty, shown := fn.params[i].ty, AllShown(Derive(fn).value, orig, mem)[i].typeName;
            && (ty.Id? && ty.def.name.Some? ==> shown == ty.def.name.value)
            && (ty.Id? && ty.def.name.None? && ty.def.kind.Alias? ==> shown == TypeName(ty.def.kind.inner))
            && (IsScalar(ty) && !ty.Bool? && !ty.Char? ==>
                shown == Ascii(Letter(ty) + Decimals.Digits(8 * Size(LayoutOf(ty)))))
            && (ty.Bool? ==> shown == Ascii("bool"))
            && (ty.Char? ==> shown == Ascii("char"))
            && (ty.Text? ==> shown == Ascii("string"))
  {
    var f := Derive(fn).value;
    DerivedParam(fn, i);
    hide Derive, Consistent, OrigFits;
    assert AllShown(f, orig, mem)[i] == Shown(fn.params[i], f.paramDiscs[i], f.paramFlats[i], orig[i], mem);
    hide Shown, FromCore;
    var ty := fn.params[i].ty;
    if IsScalar(ty) && !ty.Bool? && !ty.Char? {
      NumberNames(ty);
    }
  }

  lemma NumberNames(ty: Ty)
    requires IsScalar(ty) && !ty.Bool? && !ty.Char?
    ensures TypeName(ty) == Ascii(Letter(ty) + Decimals.Digits(8 * Size(LayoutOf(ty))))
  {
    assert Decimals.Digits(8) == "8" && Decimals.Digits(16) == "16" && Decimals.Digits(32) == "32"
           && Decimals.Digits(64) == "64";
  }
}
