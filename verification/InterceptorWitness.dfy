/** Calls that run to their end: the refinement theorem speaks about runs that exist, and so do its surprises. */
module InterceptorWitness {
  import opened Wrappers
  import opened Memory
  import opened CanonicalAbi
  import opened Layouts
  import opened Signature
  import opened Protocol
  import opened CoreWasm
  import opened Generator
  import opened HostReplies
  import opened InterceptorArea
  import opened InterceptorEntry
  import opened InterceptorBefore
  import opened InterceptorSlots
  import opened InterceptorTarget
  import opened InterceptorRefinement
  import opened InterceptorModule
  import opened InterceptorResults

  lemma HostKeeps(m: Mem, heap: nat, ret: nat, size: nat)
    requires heap <= |m|
    ensures HostWrote(m, heap, m, heap, ret, size)
  {
  }

  /** What an option slot without a value holds. */
  function OldSlot(m: Mem, a: nat): Value
    requires a + 24 <= |m|
  {
    Junk(m[a + 8], W32(m, a + 16), W32(m, a + 20))
  }

  lemma NoParams(c: Ctx)
    requires Callable(c) && c.f.params == []
    ensures c.orig == [] && c.f.paramFlats == [] && c.f.paramDiscs == []
    ensures OrigFits(c.f, c.orig, c.mem0, |c.mem0|) && AllShown(c.f, c.orig, c.mem0) == []
              && Marshalled(c, c.mem0, 0) == c.mem0
  {
    CtxOrig(c);
  }

  // ---- A call that is let through ---------------------------------------------------------------------------

  /** The replies of advice that lets a call of a function without result through. */
  function Obliging(c: Ctx, handle: nat): seq<Reply>
    requires Spacious(c)
  {
    var m0 := Marshalled(c, c.mem0, |c.f.params|);
    var m := Proposed(c, m0);
    [NewReply(handle), Proposal(c, m0), TargetReply(NoResult, m, ListEnd(c)), Assent(c, m, ListEnd(c))]
  }

  lemma ObligingFits(c: Ctx, handle: nat)
    requires Spacious(c) && c.f.result.None?
    ensures c.f.resultDisc.None? && AcceptedAtLast(c, Obliging(c, handle))
            && Last(c, Obliging(c, handle)) == Obliging(c, handle)
  {
    hide Callable, Proposed, Marshalled, BeforeFits, TargetFits, AfterFits, CallsTarget, ListEnd, GivenArgs, HostWrote;
    var m0 := Marshalled(c, c.mem0, |c.f.params|);
    var m := Proposed(c, m0);
    ProposalFits(c, m0);
    SilenceFits(c, m, ListEnd(c));
    AssentFits(c, m, ListEnd(c));
    OneRound(c, Obliging(c, handle));
  }

  /**
   * With obliging replies a call of a function without result runs to its end: one instance of advice, the target once,
   * and the handle dropped.
   */
  lemma SimpleCallRuns(c: Ctx, handle: nat)
    requires Spacious(c) && c.f.result.None?
    ensures |c.f.paramFlats| == |c.f.paramDiscs| == |c.orig| == |c.f.params| && Consistent(c.f)
            && OrigFits(c.f, c.orig, c.mem0, |c.mem0|)
    ensures var o := CallRun(c, Obliging(c, handle));
            && o.Next?
            && o.m.trace == [New(c.f.funcName, AllShown(c.f, c.orig, c.mem0), handle), Before(handle),
                             Target(TargetArgs(c.f, GivenArgs(c, Marshalled(c, c.mem0, |c.f.params|)), c.orig)),
                             After(handle, None), Drop(handle)]
  {
    hide CallRun, Feasible, OrigFits, StringsIn, HostWrote, AllShown, CallsTarget, TargetArgs, Callable, Marshalled,
      Proposed, GivenArgs, Last, AcceptedAtLast;
    ObligingFits(c, handle);
    AcceptedVoid(c, Obliging(c, handle));
  }

  // ---- An absent value that is returned -----------------------------------------------------------------------

  /**
   * A function without parameters that returns a text, with zeros where `before` answers and room for an empty text.
   */
  predicate Blank(c: Ctx) {
    && Callable(c) && c.f.params == [] && c.f.resultDisc == Some(DISC_STRING)
    && !Tight(c, c.Mark())
    && forall i :: c.BeforeAddr() <= i < c.BeforeAddr() + 32 ==> c.mem0[i] == 0
  }

  /** Advice that skips without a value: the host writes the action's tag and the option's, and nothing else. */
  function SkipsWithout(c: Ctx, handle: nat): seq<Reply>
    requires Blank(c)
  {
    CtxFacts(c);
    [NewReply(handle), BeforeReply(Skip(false, Junk(0, 0, 0)), c.mem0[c.BeforeAddr() := 1], c.Mark())]
  }

  lemma SkipFits(c: Ctx, handle: nat)
    requires Blank(c)
    ensures Answerable(c, SkipsWithout(c, handle))
  {
    hide Load, OrigFits, StringsIn;
    CtxFacts(c);
    NoParams(c);
    var s, a := SkipsWithout(c, handle), c.BeforeAddr();
    var m: Mem := s[1].mem;
    ZeroWord(m, a + 24);
    ZeroWord(m, a + 28);
    assert BeforeFits(c, c.mem0, c.Mark(), s[1]);
  }

  /** Skipping without a value returns a text: the empty one, since a zeroed slot bears the tag of text. */
  lemma EmptyTextReturned(c: Ctx, handle: nat)
    requires Blank(c)
    ensures var o := CallRun(c, SkipsWithout(c, handle));
            && o.Next? && Local_(o.m, Out) + 8 <= |o.m.mem|
            && W32(o.m.mem, Local_(o.m, Out)) == 0 && W32(o.m.mem, Local_(o.m, Out) + 4) == 0
  {
    hide Load, OrigFits, StringsIn, Run, Body, Feasible;
    SkipFits(c, handle);
    CtxFacts(c);
    TextInArea(c.f);
    var s, a := SkipsWithout(c, handle), c.BeforeAddr();
    AbsentSkip(c, s, Junk(0, 0, 0));
    ZeroWord(s[1].mem, a + 24);
    ZeroWord(s[1].mem, a + 28);
  }

  lemma TextInArea(f: InterceptedFunction)
    requires Consistent(f) && f.resultDisc == Some(DISC_STRING)
    ensures f.usesRetarea
  {
  }

  // ---- A false that arrives as true ---------------------------------------------------------------------------

  /**
   * A function of one boolean, called with room for one record above the work areas; there is a byte left over where
   * that record's boolean will be, just above the byte the host writes, and otherwise zeros.
   */
  predicate Stale(c: Ctx) {
    && Callable(c) && |c.f.params| == 1 && c.f.paramDiscs == [DISC_BOOL] && c.f.resultDisc.None?
    && ListEnd(c) <= |c.mem0|
    && (forall i :: c.BeforeAddr() <= i < ListAddr(c) + 25 ==> c.mem0[i] == 0)
    && c.mem0[ListAddr(c) + 25] != 0
  }

  /** The host writes the list's address and the record's tag; everything else, the false too, is there already. */
  function WithFalse(c: Ctx): (m: Mem)
    requires Stale(c)
    ensures |m| == |c.mem0|
  {
    var m := Store(Marshalled(c, c.mem0, 1), c.BeforeAddr() + 8, 4, ListAddr(c));
    m[ListAddr(c) + 16 := DISC_BOOL]
  }

  function StaleArg(c: Ctx): Arg
    requires Stale(c)
  {
    var m, a := WithFalse(c), ListAddr(c);
    Arg([], [], Junk(DISC_BOOL, W32(m, a + 24), W32(m, a + 28)))
  }

  function ProceedsWithFalse(c: Ctx, handle: nat): seq<Reply>
    requires Stale(c)
  {
    CtxFacts(c);
    var m, heap := WithFalse(c), ListAddr(c) + 32;
    [NewReply(handle), BeforeReply(Proceed([StaleArg(c)]), m, heap), TargetReply(NoResult, m, heap),
     AfterReply(Accept(false, OldSlot(m, c.AfterAddr() + 8)), m, heap)]
  }

  /** Marshalling writes inside the argument area only. */
  lemma {:induction false} MarshalledOutside(c: Ctx, n: nat)
    requires Callable(c) && n <= |c.f.params|
    ensures Low(c, Marshalled(c, c.mem0, n))
    ensures forall j :: 0 <= j < |c.mem0| && !(c.Base() <= j < c.Base() + 32 * n) ==>
              Marshalled(c, c.mem0, n)[j] == c.mem0[j]
  {
    hide RecordMem, RecordOk, OrigFits, StringsIn;
    CtxFacts(c);
    if n > 0 {
      MarshalledOutside(c, n - 1);
      RecordWritten(c, Marshalled(c, c.mem0, n - 1), n - 1);
    }
  }

  /** What the host's memory holds. */
  lemma WithFalseReads(c: Ctx)
    requires Stale(c)
    ensures var m, a := WithFalse(c), ListAddr(c);
            && W32(m, c.BeforeAddr() + 8) == a && m[c.BeforeAddr()] == 0 && m[c.AfterAddr()] == 0
                 && m[c.AfterAddr() + 8] == 0
            && (forall i :: a <= i < a + 16 ==> m[i] == 0)
            && m[a + 16] == DISC_BOOL && m[a + 24] == 0 && m[a + 25] != 0
            && HostWrote(Marshalled(c, c.mem0, 1), c.Mark(), m, a + 32, c.BeforeAddr(), 32)
  {
    hide Load, Store, Marshalled, OrigFits, StringsIn, RecordMem;
    CtxFacts(c);
    MarshalledOutside(c, 1);
    Powers();
    var m0, a := Marshalled(c, c.mem0, 1), ListAddr(c);
    var m1 := Store(m0, c.BeforeAddr() + 8, 4, a);
    LoadStored(m0, c.BeforeAddr() + 8, 4, a);
    StoreKeeps(m0, c.BeforeAddr() + 8, 4, a);
    LoadAgrees(WithFalse(c), m1, c.BeforeAddr() + 8, 4);
  }

  lemma StaleRecord(c: Ctx)
    requires Stale(c)
    ensures var m, a := WithFalse(c), ListAddr(c);
            ArgsAt(m, a, [StaleArg(c)]) && W32(m, a + 24) != 0 && StoredBoolean(m, a + 16, false)
  {
    hide Load, Marshalled, OrigFits, StringsIn, WithFalse;
    WithFalseReads(c);
    var m, a := WithFalse(c), ListAddr(c);
    ZeroWord(m, a);
    ZeroWord(m, a + 4);
    ZeroWord(m, a + 8);
    ZeroWord(m, a + 12);
    StaleWord(m, a + 24);
    assert m[0..0] == [];
    assert ArgAt(m, a) == Some(StaleArg(c));
  }

  lemma StaleWord(m: Mem, a: nat)
    requires a + 4 <= |m| && m[a + 1] != 0
    ensures W32(m, a) > 1
  {
    FourBytes(m[a], m[a + 1], m[a + 2], m[a + 3]);
    assert m[a..a + 4] == [m[a], m[a + 1], m[a + 2], m[a + 3]];
  }

  lemma FalseFits(c: Ctx, handle: nat)
    requires Stale(c)
    ensures RoundFits(c, Marshalled(c, c.mem0, 1), ProceedsWithFalse(c, handle))
    ensures CallsTarget(c, ProceedsWithFalse(c, handle)[1])
  {
    hide Load, Marshalled, OrigFits, StringsIn, WithFalse, HostWrote, ArgsAt, StaleArg;
    CtxFacts(c);
    WithFalseReads(c);
    StaleRecord(c);
    var s, m, heap := ProceedsWithFalse(c, handle), WithFalse(c), ListAddr(c) + 32;
    HostKeeps(m, heap, 0, 0);
    HostKeeps(m, heap, c.AfterAddr(), 32);
    assert Tag(StaleArg(c).value) == DISC_BOOL by { StaleTag(c); }
    assert BeforeFits(c, Marshalled(c, c.mem0, 1), c.Mark(), s[1]);
    assert TargetFits(c, m, heap, s[2]) by { SilenceFits(c, m, heap); }
    assert AfterFits(c, m, heap, s[3]);
  }

  lemma StaleTag(c: Ctx)
    requires Stale(c)
    ensures Tag(StaleArg(c).value) == DISC_BOOL
  {
  }

  /** The advice gives false; the host stores it as one byte; the target is called with a flat that is not zero. */
  lemma FalseArrivesTrue(c: Ctx, handle: nat)
    requires Stale(c)
    ensures StoredBoolean(WithFalse(c), ListAddr(c) + 16, false)
    ensures var o := CallRun(c, ProceedsWithFalse(c, handle));
            && o.Next? && |o.m.trace| == 5 && o.m.trace[2].Target? && |o.m.trace[2].targetArgs| > 0
            && exists w :: o.m.trace[2].targetArgs[0] == CoreArg([w]) && w != 0
  {
    hide Load, Marshalled, OrigFits, StringsIn, WithFalse, HostWrote, ArgsAt, StaleArg, Run, Body, Feasible,
      TargetArgs, AllShown, Last, CallsTarget, RoundFits;
    var s := ProceedsWithFalse(c, handle);
    FalseFits(c, handle);
    CtxFacts(c);
    WithFalseReads(c);
    StaleRecord(c);
    OneRound(c, s);
    AcceptedVoid(c, s);
    BooleanArg(c, WithFalse(c), s[1].before.args, ListAddr(c), 0);
  }

  // ---- A complex result that is not kept ------------------------------------------------------------------------

  /** The target answers, and the advice accepts without a value. */
  function AcceptsWithout(c: Ctx, handle: nat): seq<Reply>
    requires Spacious(c) && Formed(ResultLayout(c.f)) && c.f.resultDisc == Some(DISC_COMPLEX) && c.f.usesRetarea
  {
    var m0 := Marshalled(c, c.mem0, |c.f.params|);
    AnswerFits(c, Proposed(c, m0));
    var answer := ProbeAnswer(c, Proposed(c, m0));
    [NewReply(handle), Proposal(c, m0), answer, Assent(c, answer.mem, ListEnd(c))]
  }

  /** Accepting the target's complex result without a value of one's own traps. */
  lemma ComplexResultLost(c: Ctx, handle: nat)
    requires Spacious(c) && Formed(ResultLayout(c.f)) && c.f.resultDisc == Some(DISC_COMPLEX) && c.f.usesRetarea
    ensures var o := CallRun(c, AcceptsWithout(c, handle)); o.Trap? && o.why == Unreached
  {
    hide Callable, Proposed, Marshalled, BeforeFits, TargetFits, AfterFits, CallsTarget, ListEnd, GivenArgs, HostWrote,
      Lower, Lift, Probe, Formed, CallRun, AcceptedAtLast, Last;
    var m0 := Marshalled(c, c.mem0, |c.f.params|);
    ProposalFits(c, m0);
    AnswerFits(c, Proposed(c, m0));
    AssentFits(c, ProbeAnswer(c, Proposed(c, m0)).mem, ListEnd(c));
    OneRound(c, AcceptsWithout(c, handle));
    ComplexAccept(c, AcceptsWithout(c, handle));
  }

  // ---- Such calls exist -------------------------------------------------------------------------------------------

  /** The first call of a function that takes nothing, in a memory of zeros. */
  lemma FirstCall(ty: Option<Ty>, page: nat) returns (c: Ctx)
    requires ty.Some? ==> 1 <= |Flatten(ty.value)| <= FLAT_BUFFER
    requires 64 + Size(PayloadOf(ty)) <= page <= 65536
    requires ty.Some? ==> 72 + RetSize(Flatten(ty.value)) <= page
    ensures Derive(WitFunction([], [], ty)) == Success(c.f) && Spacious(c) && c.f.params == [] && c.f.result == ty
    ensures c.BeforeAddr() == 0 && c.RetAddr() == 64
    ensures |c.mem0| == page && forall i :: 0 <= i < page ==> c.mem0[i] == 0
  {
    var fn := WitFunction([], [], ty);
    NothingPassed(fn);
    DeriveConsistent(fn);
    var f := Derive(fn).value;
    c := Ctx(f, Strings(0, 0, []), [], seq(page, i requires 0 <= i < page => 0), 0);
    hide Derive, RetSize, Consistent, AlignUp, Concat, Flatten, Size;
    BlankFits(f, c.mem0);
    hide OrigFits, StringsIn;
    assert AlignUp(0, 8) == 0 by { AlreadyAligned(0); }
  }

  lemma NothingPassed(fn: WitFunction)
    requires fn.params == [] && (fn.result.Some? ==> 1 <= |Flatten(fn.result.value)| <= FLAT_BUFFER)
    ensures Derive(fn).Success? && InScope(Derive(fn).value)
    ensures var f := Derive(fn).value;
            && f.params == [] && f.funcName == fn.name && f.result == fn.result
            && f.resultFlats == (if fn.result.Some? then Flatten(fn.result.value) else [])
            && f.resultDisc == (if fn.result.Some? then Some(ValueDiscriminant(fn.result.value)) else None)
            && (f.usesRetarea <==> |f.resultFlats| > 1)
  {
    hide Flatten;
    assert Concat<WT>([]) == [];
  }

  lemma BlankFits(f: InterceptedFunction, m: Mem)
    requires Consistent(f) && f.params == [] && f.funcName == []
    ensures OrigFits(f, [], m, 0) && StringsIn(f, Strings(0, 0, []), m, 0)
  {
    assert m[0..0] == [];
  }

  /** The first call of a function that takes and returns nothing can be let through. */
  lemma SomeSimple(page: nat) returns (c: Ctx)
    requires 64 <= page <= 65536
    ensures Spacious(c) && c.f.result.None? && Derive(WitFunction([], [], None)) == Success(c.f)
  {
    c := FirstCall(None, page);
  }

  /** The first call of a function that takes nothing and returns a text. */
  lemma SomeBlank(page: nat) returns (c: Ctx)
    requires 80 <= page <= 65536
    ensures Blank(c) && Derive(WitFunction([], [], Some(Text))) == Success(c.f)
  {
    TextLayout();
    c := FirstCall(Some(Text), page);
    NothingPassed(WitFunction([], [], Some(Text)));
    hide Callable, RetSize;
    CtxFacts(c);
    assert c.Mark() == 72 && AlignUp(72, 8) == 72;
  }

  lemma TextLayout()
    ensures Flatten(Text) == [I32, I32] && RetSize(Flatten(Text)) == 8 && Size(PayloadOf(Some(Text))) == 8
  {
    assert AreaEnd([I32, I32], 1) == 4 && AreaEnd([I32, I32], 2) == 8;
  }

  const PAIR := Id(TypeDef(None, Tuple([U64, U64])))

  /** The first call of a function that takes nothing and returns two numbers. */
  lemma SomeCarrier(page: nat) returns (c: Ctx)
    requires 88 <= page <= 65536
    ensures Derive(WitFunction([], [], Some(PAIR))) == Success(c.f)
    ensures Spacious(c) && Formed(ResultLayout(c.f)) && c.f.resultDisc == Some(DISC_COMPLEX) && c.f.usesRetarea
  {
    PairLayout();
    c := FirstCall(Some(PAIR), page);
    NothingPassed(WitFunction([], [], Some(PAIR)));
  }

  lemma PairLayout()
    ensures Flatten(PAIR) == [I64, I64] && RetSize(Flatten(PAIR)) == 16 && Size(LayoutOf(PAIR)) == 16
    ensures Formed(LayoutOf(PAIR))
  {
    var l := LayoutOf(PAIR);
    assert l == Fields([Prim(I64, 8), Prim(I64, 8)]);
    assert FlatsOf(l, 1) == [I64] && FlatsOf(l, 2) == [I64, I64];
    assert EndOf(l, 1) == 8 && EndOf(l, 2) == 16 && Widest(l, 1) == 8;
  }

  /** A call of a function of one boolean, where an earlier call has left a byte above the work areas. */
  lemma SomeStale(page: nat) returns (c: Ctx)
    requires 136 <= page <= 65536
    ensures Stale(c) && Derive(WitFunction([], [Param([], Bool)], None)) == Success(c.f)
  {
    var fn := WitFunction([], [Param([], Bool)], None);
    var f := Derive(fn).value;
    BoolFlats(fn);
    DeriveConsistent(fn);
    var name := TypeName(Bool);
    var mem: Mem := seq(page, i requires 0 <= i < page => if i < 4 then name[i] else if i == 129 then 7 else 0);
    c := Ctx(f, Strings(0, 0, [ParamStrings(0, 0, 0, 4)]), [[0]], mem, 8);
    assert mem[0..0] == [];
    assert mem[0..4] == name;
    assert c.Base() == 8 && c.Mark() == 104 && ListAddr(c) == 104;
  }

  lemma BoolFlat()
    ensures FlatTypes(Bool) == Success([I32])
  {
  }

  lemma BoolFlats(fn: WitFunction)
    requires fn == WitFunction([], [Param([], Bool)], None)
    ensures Derive(fn).Success? && InScope(Derive(fn).value) && |TypeName(Bool)| == 4
    ensures var f := Derive(fn).value;
            f.paramFlats == [[I32]] && f.paramDiscs == [DISC_BOOL] && f.resultDisc.None? && f.resultFlats == []
              && f.params == fn.params
  {
    BoolFlat();
    hide FlatTypes;
    assert fn.params[..|fn.params| - 1] == [] && AllFlats([]) == Success([]);
    assert AllFlats(fn.params) == Success([] + [[I32]]);
    assert Concat([[I32]]) == [I32] by {
      assert [[I32]][..0] == [];
    }
  }
}
