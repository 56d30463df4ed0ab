/** The advice protocol as values, and the loop an intercepted call is meant to run. */
module Protocol {
  import opened Wrappers
  import opened Memory
  import opened CanonicalAbi
  import opened Layouts
  import opened Signature

  // ---- Values and where they live in memory ------------------------------------------------

  /** A protocol value. Floats are bit patterns. `Junk` is a slot that holds no value of its tag. */
  datatype Value =
    | Str(text: seq<Byte>)
    | Signed(x: int)
    | Unsigned(u: nat)
    | Single(bits32: nat)
    | Double(bits64: nat)
    | Boolean(b: bool)
    | Complex(blob: seq<Byte>)
    | Junk(tag: Byte, lo: nat, hi: nat)

  function Tag(v: Value): nat {
    match v
    case Str(_) => DISC_STRING
    case Signed(_) => DISC_SIGNED
    case Unsigned(_) => DISC_UNSIGNED
    case Single(_) => DISC_F32
    case Double(_) => DISC_F64
    case Boolean(_) => DISC_BOOL
    case Complex(_) => DISC_COMPLEX
    case Junk(tag, _, _) => tag
  }

  /** The 64-bit payload word of a value that is not text. */
  function Word(v: Value): nat {
    match v
    case Signed(x) => x % T64
    case Unsigned(u) => u
    case Single(b) => b
    case Double(b) => b
    case Boolean(b) => if b then 1 else 0
    case Junk(_, lo, hi) => lo + T32 * hi
    case Str(_) => 0
    case Complex(_) => 0
  }

  /** The core value handed on for a scalar: the low word, or all of it. */
  function ToCore(ty: WT, v: Value): nat {
    if ty.Size() == 4 then Word(v) % T32 else Word(v)
  }

  function SignExtend(x: nat): nat {
    if x < T32 / 2 then x else x + T64 - T32
  }

  function AsSigned(x: nat): int {
    if x < T64 / 2 then x else x - T64
  }

  /** The protocol value of a core scalar of discriminant `disc`. */
  function FromCore(disc: nat, ty: WT, bits: nat): Value {
    if disc == DISC_SIGNED then Signed(AsSigned(if ty.I32? then SignExtend(bits) else bits))
    else if disc == DISC_UNSIGNED then Unsigned(bits)
    else if disc == DISC_F32 then Single(bits)
    else if disc == DISC_F64 then Double(bits)
    else Boolean(bits != 0)
  }

  /** A core scalar in the range of its type; a boolean is 0 or 1. */
  predicate CoreFits(disc: nat, ty: WT, bits: nat) {
    && bits < (if ty.Size() == 4 then T32 else T64)
    && (disc == DISC_BOOL ==> bits <= 1)
  }

  /** Core to protocol and back is the identity. */
  lemma CoreRoundTrip(disc: nat, ty: WT, bits: nat)
    requires disc != DISC_STRING && disc != DISC_COMPLEX && DiscFits(disc, [ty]) && CoreFits(disc, ty, bits)
    ensures Tag(FromCore(disc, ty, bits)) == disc
    ensures ToCore(ty, FromCore(disc, ty, bits)) == bits
  {
    FitsOne(disc, ty);
    hide DiscFits;
  }

  /** A scalar's discriminant fixes its core type. */
  lemma FitsOne(disc: nat, ty: WT)
    requires disc != DISC_STRING && disc != DISC_COMPLEX && DiscFits(disc, [ty])
    ensures disc == DISC_SIGNED || disc == DISC_UNSIGNED ==> ty.I32? || ty.I64?
    ensures disc == DISC_F32 ==> ty.F32?
    ensures disc == DISC_F64 ==> ty.F64?
    ensures disc == DISC_BOOL ==> ty.I32?
    ensures disc <= DISC_BOOL
  {
    assert [ty][0] == ty;
    assert [I32, I32][1] == I32;
    assert |[I32, I32]| == 2;
    assert [I32][0] == I32 && [I64][0] == I64 && [F32][0] == F32 && [F64][0] == F64;
  }

  /** How many core values a type of integer has. */
  function Span(ty: WT): nat {
    if ty.Size() == 4 then T32 else T64
  }

  /** Advice is shown the number that the core value is in two's complement. */
  lemma NumberShown(n: int, ty: WT)
    requires ty.I32? || ty.I64?
    ensures -(Span(ty) / 2) <= n < Span(ty) / 2 ==> FromCore(DISC_SIGNED, ty, n % Span(ty)) == Signed(n)
    ensures 0 <= n < Span(ty) ==> FromCore(DISC_UNSIGNED, ty, n) == Unsigned(n)
  {
    if -(Span(ty) / 2) <= n < 0 {
      assert n % Span(ty) == n + Span(ty);
    }
  }

  /** The number advice gives goes on as the low bits of its two's complement. */
  lemma NumberGiven(n: int, ty: WT)
    requires ty.I32? || ty.I64?
    ensures -(T64 / 2) <= n < T64 / 2 ==> ToCore(ty, Signed(n)) == n % Span(ty)
    ensures 0 <= n < T64 ==> ToCore(ty, Unsigned(n)) == n % Span(ty)
  {
    assert T64 == T32 * T32;
    if -(T64 / 2) <= n < 0 {
      assert n % T64 == n + T64;
      assert (n + T32 * T32) % T32 == n % T32;
    }
  }

  function TextAt(m: Mem, ptr: nat, len: nat): Option<seq<Byte>> {
    if ptr + len <= |m| then Some(m[ptr..ptr + len]) else None
  }

  /** Reads the variant at `a`: tag byte, payload at +8. */
  function ValueAt(m: Mem, a: nat): Value
    requires a + 16 <= |m|
  {
    var tag, lo, hi := m[a], W32(m, a + 8), W32(m, a + 12);
    if tag == DISC_STRING && TextAt(m, lo, hi).Some? then Str(TextAt(m, lo, hi).value)
    else if tag == DISC_SIGNED then Signed(AsSigned(lo + T32 * hi))
    else if tag == DISC_UNSIGNED then Unsigned(lo + T32 * hi)
    else if tag == DISC_F32 then Single(lo)
    else if tag == DISC_F64 then Double(lo + T32 * hi)
    else if tag == DISC_BOOL && hi == 0 && lo <= 1 then Boolean(lo == 1)
    else if tag == DISC_COMPLEX && TextAt(m, lo, hi).Some? then Complex(TextAt(m, lo, hi).value)
    else Junk(tag, lo, hi)
  }

  /** An argument as the advice sees it: a 32-byte record. */
  datatype Arg = Arg(name: seq<Byte>, typeName: seq<Byte>, value: Value)

  function ArgAt(m: Mem, a: nat): Option<Arg>
    requires a + 32 <= |m|
  {
    match (TextAt(m, W32(m, a), W32(m, a + 4)), TextAt(m, W32(m, a + 8), W32(m, a + 12)))
    case (Some(name), Some(typeName)) => Some(Arg(name, typeName, ValueAt(m, a + 16)))
    case _ => None
  }

  /** `args` is what the list of records at `a` holds. */
  ghost predicate ArgsAt(m: Mem, a: nat, args: seq<Arg>) {
    && a + 32 * |args| <= |m|
    && a % 8 == 0
    && forall i :: 0 <= i < |args| ==> ArgAt(m, a + 32 * i) == Some(args[i])
  }

  // ---- The host's replies -------------------------------------------------------------------

  /** `present` is the option's own tag. An absent option leaves the slot's old bytes, so `slot` is junk. */
  datatype BeforeAction = Proceed(args: seq<Arg>) | Skip(present: bool, slot: Value) | BeforeError
  datatype AfterAction = Accept(present: bool, slot: Value) | Repeat(args: seq<Arg>) | AfterError
  datatype TargetResult = NoResult | TextResult(text: seq<Byte>) | Scalar(bits: nat) | Whole(v: Datum)

  /** One host reply. `mem` and `heap` are the guest's memory and allocator once the host is done. */
  datatype Reply =
    | NewReply(handle: nat)
    | BeforeReply(before: BeforeAction, mem: Mem, heap: nat)
    | TargetReply(result: TargetResult, mem: Mem, heap: nat)
    | AfterReply(after: AfterAction, mem: Mem, heap: nat)

  /** One argument as the target receives it. */
  datatype TargetArg = TextArg(text: Option<seq<Byte>>) | CoreArg(flats: seq<nat>)

  /** What a call did to the outside world. */
  datatype Event =
    | New(name: seq<Byte>, args: seq<Arg>, handle: nat)
    | Before(handle: nat)
    | Target(targetArgs: seq<TargetArg>)
    | After(handle: nat, ret: Option<Value>)
    | Drop(handle: nat)

  /** What an intercepted call returns. */
  datatype Ret = Void | Given(v: Value) | FromTarget(r: TargetResult)

  // ---- The abstract loop --------------------------------------------------------------------

  /** `Pending`: the advice or the target has not answered yet. */
  datatype Outcome = Done(ret: Ret, trace: seq<Event>) | Trapped(trace: seq<Event>) | Pending

  /** A scalar or text the advice returned; a complex position keeps the caller's own flats. */
  function TargetArgOf(disc: nat, flats: seq<WT>, arg: Value, orig: seq<nat>): TargetArg {
    if disc == DISC_COMPLEX then CoreArg(orig)
    else if disc == DISC_STRING then TextArg(if arg.Str? then Some(arg.text) else None)
    else CoreArg(if flats == [] then [] else [ToCore(flats[0], arg)])
  }

  function TargetArgs(f: InterceptedFunction, args: seq<Arg>, orig: seq<seq<nat>>): seq<TargetArg>
    requires |f.paramFlats| == |f.paramDiscs| == |orig| == |args|
  {
    seq(|args|, i requires 0 <= i < |args| => TargetArgOf(f.paramDiscs[i], f.paramFlats[i], args[i].value, orig[i]))
  }

  /** What the advice is told about the target's result. */
  function Told(f: InterceptedFunction, r: TargetResult): Option<Value> {
    match f.resultDisc
    case None => None
    case Some(disc) =>
      Some(if disc == DISC_COMPLEX then Complex([])
           else match r
             case TextResult(text) => Str(text)
             case Scalar(bits) => FromCore(disc, if f.resultFlats == [] then I32 else f.resultFlats[0], bits)
             case _ => Junk(0, 0, 0))
  }

  predicate KindsMatch(f: InterceptedFunction, args: seq<Arg>)
    requires |f.paramDiscs| == |args|
  {
    forall i :: 0 <= i < |args| ==> Tag(args[i].value) == f.paramDiscs[i]
  }

  /** new, before, then skip / error / target, after, then accept / repeat / error. */
  function Loop(f: InterceptedFunction, orig: seq<seq<nat>>, args: seq<Arg>, script: seq<Reply>,
                trace: seq<Event>): Outcome
    requires |f.paramFlats| == |f.paramDiscs| == |orig| == |args|
    decreases |script|
  {
    if |script| < 2 || !script[0].NewReply? || !script[1].BeforeReply? then Pending else
    var h := script[0].handle;
    var begun := trace + [New(f.funcName, args, h), Before(h)];
    match script[1].before
    case BeforeError => Trapped(begun + [Drop(h)])
    case Skip(_, v) =>
      if f.resultDisc.None? then Done(Void, begun + [Drop(h)])
      else if f.resultDisc.value == DISC_COMPLEX then Trapped(begun)
      else if Tag(v) != f.resultDisc.value then Trapped(begun + [Drop(h)])
      else Done(Given(v), begun + [Drop(h)])
    case Proceed(given) =>
      if |given| != |args| then Pending
      else if !KindsMatch(f, given) then Trapped(begun)
      else if |script| < 4 || !script[2].TargetReply? || !script[3].AfterReply? then Pending else
      var r := script[2].result;
      var called := begun + [Target(TargetArgs(f, given, orig)), After(h, Told(f, r))];
      match script[3].after
      case AfterError => Trapped(called + [Drop(h)])
      case Repeat(again) =>
        if |again| != |args| then Pending
        else Loop(f, orig, again, script[4..], called + [Drop(h)])
      case Accept(_, v) =>
        if f.resultDisc.None? then Done(Void, called + [Drop(h)])
        else if Tag(v) != f.resultDisc.value then Trapped(called)
        else if f.resultDisc.value == DISC_COMPLEX then Done(FromTarget(r), called + [Drop(h)])
        else Done(Given(v), called + [Drop(h)])
  }

  // ---- Facts about the abstract loop ----------------------------------------------------------

  /** Handles opened and not yet dropped, newest last. Dropping anything but the newest is a fault. */
  function Open(trace: seq<Event>): Option<seq<nat>> {
    if trace == [] then Some([]) else
    match Open(trace[..|trace| - 1])
    case None => None
    case Some(held) =>
      match trace[|trace| - 1]
      case New(_, _, h) => Some(held + [h])
      case Drop(h) => if held != [] && held[|held| - 1] == h then Some(held[..|held| - 1]) else None
      case _ => Some(held)
  }

  lemma OpenStep(trace: seq<Event>, e: Event)
    ensures Open(trace + [e]) ==
            (match Open(trace)
             case None => None
             case Some(held) =>
               match e
               case New(_, _, h) => Some(held + [h])
               case Drop(h) => if held != [] && held[|held| - 1] == h then Some(held[..|held| - 1]) else None
               case _ => Some(held))
  {
    assert (trace + [e])[..|trace|] == trace;
  }

  lemma OpenRound(trace: seq<Event>, f: InterceptedFunction, args: seq<Arg>, h: nat, mid: seq<Event>)
    requires Open(trace) == Some([])
    requires |mid| == 0 || (|mid| == 2 && mid[0].Target? && mid[1].After?)
    ensures Open(trace + [New(f.funcName, args, h), Before(h)] + mid + [Drop(h)]) == Some([])
  {
    var t1 := trace + [New(f.funcName, args, h)];
    var t2 := t1 + [Before(h)];
    OpenStep(trace, New(f.funcName, args, h));
    OpenStep(t1, Before(h));
    assert t2 == trace + [New(f.funcName, args, h), Before(h)];
    var t3 := t2 + mid;
    if |mid| == 2 {
      OpenStep(t2, mid[0]);
      OpenStep(t2 + [mid[0]], mid[1]);
      assert t2 + [mid[0]] + [mid[1]] == t3;
    } else {
      assert t3 == t2;
    }
    OpenStep(t3, Drop(h));
    assert ([] + [h])[..0] == [];
  }

  /** Every call that returns has dropped each invocation handle exactly once. */
  lemma {:induction false} HandlesDropped(f: InterceptedFunction, orig: seq<seq<nat>>, args: seq<Arg>,
                                          script: seq<Reply>, trace: seq<Event>)
    requires |f.paramFlats| == |f.paramDiscs| == |orig| == |args|
    requires Open(trace) == Some([])
    ensures var o := Loop(f, orig, args, script, trace); o.Done? ==> Open(o.trace) == Some([])
    decreases |script|
  {
    if |script| < 2 || !script[0].NewReply? || !script[1].BeforeReply? { return; }
    var h := script[0].handle;
    var begun := trace + [New(f.funcName, args, h), Before(h)];
    OpenRound(trace, f, args, h, []);
    assert begun + [] == begun;
    if |script| >= 4 && script[1].before.Proceed? && script[2].TargetReply? && script[3].AfterReply?
       && |script[1].before.args| == |args| {
      var mid := [Target(TargetArgs(f, script[1].before.args, orig)), After(h, Told(f, script[2].result))];
      OpenRound(trace, f, args, h, mid);
      if script[3].after.Repeat? && |script[3].after.args| == |args| {
        HandlesDropped(f, orig, script[3].after.args, script[4..], begun + mid + [Drop(h)]);
      }
    }
  }

  /** The argument the advice is first shown for a caller's flats. */
  function Shown(p: Param, disc: nat, flats: seq<WT>, orig: seq<nat>, mem: Mem): Arg
    requires |orig| == |flats| && DiscFits(disc, flats)
  {
    Arg(p.name, TypeName(p.ty),
        if disc == DISC_COMPLEX then Complex([])
        else if disc == DISC_STRING then
          (match TextAt(mem, orig[0], orig[1]) case Some(text) => Str(text) case None => Junk(0, orig[0], orig[1]))
        else FromCore(disc, flats[0], orig[0]))
  }

  /** The caller's flats for every parameter, in range, with its texts inside memory. */
  predicate OrigFits(f: InterceptedFunction, orig: seq<seq<nat>>, mem: Mem, limit: nat)
    requires Consistent(f)
  {
    && |orig| == |f.params|
    && (forall i :: 0 <= i < |orig| ==> |orig[i]| == |f.paramFlats[i]|)
    && (forall i, j :: 0 <= i < |orig| && 0 <= j < |orig[i]| ==>
        CoreFits(f.paramDiscs[i], f.paramFlats[i][j], orig[i][j]))
    && (forall i :: 0 <= i < |orig| && f.paramDiscs[i] == DISC_STRING ==> orig[i][0] + orig[i][1] <= limit <= |mem|)
  }

  function AllShown(f: InterceptedFunction, orig: seq<seq<nat>>, mem: Mem): (r: seq<Arg>)
    requires Consistent(f) && OrigFits(f, orig, mem, |mem|)
    ensures |r| == |f.params|
  {
    seq(|f.params|, i requires 0 <= i < |f.params| =>
        Shown(f.params[i], f.paramDiscs[i], f.paramFlats[i], orig[i], mem))
  }

  /** The arguments the target would have received without interception. */
  function Direct(f: InterceptedFunction, orig: seq<seq<nat>>, mem: Mem): (r: seq<TargetArg>)
    requires Consistent(f) && OrigFits(f, orig, mem, |mem|)
  {
    seq(|f.params|, i requires 0 <= i < |f.params| =>
      if f.paramDiscs[i] == DISC_STRING then TextArg(Some(mem[orig[i][0]..orig[i][0] + orig[i][1]]))
          else CoreArg(orig[i]))
  }

  /** The result the target's own answer denotes. */
  predicate SameResult(f: InterceptedFunction, ret: Ret, r: TargetResult) {
    match f.resultDisc
    case None => ret == Void
    case Some(disc) =>
      if disc == DISC_COMPLEX then ret == FromTarget(r)
      else match r
        case TextResult(text) => ret == Given(Str(text))
        case Scalar(bits) => ret.Given? && |f.resultFlats| > 0 && ToCore(f.resultFlats[0], ret.v) == bits
        case _ => false
  }

  /** A target answer of the shape its signature promises. */
  predicate ResultFits(f: InterceptedFunction, r: TargetResult) {
    match f.resultDisc
    case None => r.NoResult?
    case Some(disc) =>
      if f.usesRetarea then (if disc == DISC_STRING then r.TextResult? else r.Whole?)
      else r.Scalar? && |f.resultFlats| == 1 && CoreFits(disc, f.resultFlats[0], r.bits)
  }

  /** What the advice is shown has the declared kind and, handed back, gives the target the caller's flats. */
  lemma ShownReturns(p: Param, disc: nat, flats: seq<WT>, orig: seq<nat>, mem: Mem)
    requires |orig| == |flats| && DiscFits(disc, flats)
    requires forall j :: 0 <= j < |orig| ==> CoreFits(disc, flats[j], orig[j])
    requires disc == DISC_STRING ==> orig[0] + orig[1] <= |mem|
    ensures Tag(Shown(p, disc, flats, orig, mem).value) == disc
    ensures TargetArgOf(disc, flats, Shown(p, disc, flats, orig, mem).value, orig) ==
            if disc == DISC_STRING then TextArg(Some(mem[orig[0]..orig[0] + orig[1]])) else CoreArg(orig)
  {
    if disc != DISC_COMPLEX && disc != DISC_STRING {
      hide FromCore, ToCore;
      assert flats == [flats[0]];
      CoreRoundTrip(disc, flats[0], orig[0]);
      assert orig == [orig[0]];
    }
  }

  lemma AllShownReturn(f: InterceptedFunction, orig: seq<seq<nat>>, mem: Mem)
    requires Consistent(f) && OrigFits(f, orig, mem, |mem|)
    ensures KindsMatch(f, AllShown(f, orig, mem))
    ensures TargetArgs(f, AllShown(f, orig, mem), orig) == Direct(f, orig, mem)
  {
    hide Shown, TargetArgOf, CoreFits;
    forall i | 0 <= i < |f.params|
      ensures Tag(AllShown(f, orig, mem)[i].value) == f.paramDiscs[i]
      ensures TargetArgs(f, AllShown(f, orig, mem), orig)[i] == Direct(f, orig, mem)[i]
    {
      ShownReturns(f.params[i], f.paramDiscs[i], f.paramFlats[i], orig[i], mem);
    }
  }

  /** The advice is told the target's own result, with its declared kind. */
  lemma ToldResult(f: InterceptedFunction, r: TargetResult)
    requires Consistent(f) && ResultFits(f, r)
    ensures Told(f, r).Some? <==> f.resultDisc.Some?
    ensures f.resultDisc.Some? ==> Tag(Told(f, r).value) == f.resultDisc.value
    ensures f.resultDisc.Some? && f.resultDisc.value != DISC_COMPLEX ==> SameResult(f, Given(Told(f, r).value), r)
  {
    if f.resultDisc.Some? && f.resultDisc.value != DISC_COMPLEX && !f.usesRetarea {
      assert f.resultFlats == [f.resultFlats[0]];
      CoreRoundTrip(f.resultDisc.value, f.resultFlats[0], r.bits);
    }
  }

  /**
   * Advice that changes nothing is invisible: the target runs once, on the caller's values, and its value is
   * returned.
   */
  lemma IdentityAdvice(f: InterceptedFunction, orig: seq<seq<nat>>, mem: Mem, script: seq<Reply>)
    requires Consistent(f) && OrigFits(f, orig, mem, |mem|)
    requires |script| >= 4 && script[0].NewReply? && script[1].BeforeReply? && script[2].TargetReply?
              && script[3].AfterReply?
    requires script[1].before == Proceed(AllShown(f, orig, mem))
    requires ResultFits(f, script[2].result)
    requires script[3].after.Accept?
    requires Told(f, script[2].result).Some? ==> script[3].after.slot == Told(f, script[2].result).value
    ensures var o := Loop(f, orig, AllShown(f, orig, mem), script, []);
            var h := script[0].handle;
            && o.Done?
            && SameResult(f, o.ret, script[2].result)
            && o.trace == [New(f.funcName, AllShown(f, orig, mem), h), Before(h), Target(Direct(f, orig, mem)),
                           After(h, Told(f, script[2].result)), Drop(h)]
  {
    hide Consistent, OrigFits, ResultFits, AllShown, TargetArgs, Direct, Told, KindsMatch, Tag;
    AllShownReturn(f, orig, mem);
    ToldResult(f, script[2].result);
  }
}
