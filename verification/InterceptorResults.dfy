/** Which complex results reach the caller, and which are lost on the way. */
module InterceptorResults {
  import opened Wrappers
  import opened Memory
  import opened CanonicalAbi
  import opened Layouts
  import opened Signature
  import opened Protocol
  import opened CoreWasm
  import opened HostReplies
  import opened InterceptorArea
  import opened InterceptorEntry
  import opened InterceptorBefore
  import opened InterceptorModule
  import opened InterceptorSlots

  /** A call whose target's result, complex and in memory, is accepted in the end. */
  ghost predicate HandedThrough(c: Ctx, script: seq<Reply>) {
    && AcceptedAtLast(c, script)
    && Last(c, script)[2].TargetReply? && Last(c, script)[2].result.Whole?
    && c.AfterAddr() + 32 <= |Last(c, script)[3].mem|
    && Last(c, script)[3].mem[c.AfterAddr() + 16] == DISC_COMPLEX
  }

  /** The caller reads the target's value. */
  ghost predicate Reaches(c: Ctx, script: seq<Reply>)
    requires HandedThrough(c, script)
  {
    var o := CallRun(c, script);
    o.Next? && Lift(o.m.mem, ResultLayout(c.f), Local_(o.m, Out)) == Some(Last(c, script)[2].result.v)
  }

  /**
   * In every call in which the target's complex result is handed through, whatever the host does in it, the caller
   * reads the target's value: that holds if and only if the result's layout ends below the first block the host takes
   * after `before`. The area itself need not hold it.
   */
  lemma ResultReaches(c: Ctx)
    requires Callable(c) && c.f.resultDisc == Some(DISC_COMPLEX) && c.f.usesRetarea && Formed(ResultLayout(c.f))
    ensures (forall script :: HandedThrough(c, script) ==> Reaches(c, script)) <==> Roomy(c.f)
  {
    hide Callable, HandedThrough, Reaches, Roomy, Formed, Obscures;
    if Roomy(c.f) {
      forall script | HandedThrough(c, script)
        ensures Reaches(c, script)
      {
        Delivered(c, script);
      }
    } else {
      ResultLost(c);
    }
  }

  lemma Delivered(c: Ctx, script: seq<Reply>)
    requires HandedThrough(c, script) && Roomy(c.f) && c.f.resultDisc == Some(DISC_COMPLEX) && c.f.usesRetarea
    ensures Reaches(c, script)
  {
    hide CallRun, Lift, Roomy, AcceptedAtLast, Last, Returned;
    ComplexAccept(c, script);
  }

  // ---- The loss ---------------------------------------------------------------------------------------------------

  /** The end of a result's layout. */
  function ResultEnd(c: Ctx): nat {
    c.RetAddr() + Extent(ResultLayout(c.f))
  }

  /** Advice accepts with a text, `complex` as the protocol has it, that the host puts where the result's end lies. */
  function ObscuredByte(c: Ctx, m: Mem, i: nat): Byte
    requires i < |m|
  {
    var j := i - c.AfterAddr();
    if 0 <= j < 32 then
      (if j == 8 then 1
       else if j == 16 then DISC_COMPLEX
       else if 24 <= j < 28 then ToLE(ListEnd(c), 4)[j - 24]
       else if 28 <= j && ListEnd(c) <= ResultEnd(c) then ToLE(ResultEnd(c) - ListEnd(c), 4)[j - 28]
       else 0)
    else if i + 1 == ResultEnd(c) then (m[i] as int + 1) % 256
    else m[i]
  }

  function Obscured(c: Ctx, m: Mem): (r: Mem)
    ensures |r| == |m|
  {
    seq(|m|, i requires 0 <= i < |m| => ObscuredByte(c, m, i))
  }

  function Obscures(c: Ctx, m: Mem): Reply
    requires c.AfterAddr() + 32 <= |m|
  {
    AfterReply(Accept(true, ValueAt(Obscured(c, m), c.AfterAddr() + 16)), Obscured(c, m), ResultEnd(c))
  }

  lemma ObscuredReads(c: Ctx, m: Mem)
    requires Callable(c) && |m| == |c.mem0| && c.f.usesRetarea && ListEnd(c) < ResultEnd(c) <= |m|
    ensures c.AfterAddr() + 32 <= |m|
    ensures var r, a := Obscured(c, m), c.AfterAddr();
            && r[a] == 0 && r[a + 8] == 1 && r[a + 16] == DISC_COMPLEX
            && W32(r, a + 24) == ListEnd(c) && W32(r, a + 28) == ResultEnd(c) - ListEnd(c)
            && r[ResultEnd(c) - 1] != m[ResultEnd(c) - 1]
            && HostWrote(m, ListEnd(c), r, ResultEnd(c), a, 32)
  {
    hide OrigFits, StringsIn, Load, ToLE, RetSize, Consistent, Size, Extent;
    CtxFacts(c);
    hide Callable;
    var r, a := Obscured(c, m), c.AfterAddr();
    SpelledWord(r, a + 24, ListEnd(c));
    SpelledWord(r, a + 28, ResultEnd(c) - ListEnd(c));
  }

  lemma ObscuresFits(c: Ctx, m: Mem)
    requires Callable(c) && |m| == |c.mem0| && c.f.usesRetarea && ListEnd(c) < ResultEnd(c) <= |m|
    ensures c.AfterAddr() + 32 <= |m| && AfterFits(c, m, ListEnd(c), Obscures(c, m))
  {
    hide Callable, Load, Obscured, HostWrote, ResultEnd;
    CtxFacts(c);
    ObscuredReads(c, m);
  }

  /** What the host does to lose the result. */
  function Losing(c: Ctx): seq<Reply>
    requires Spacious(c) && Formed(ResultLayout(c.f)) && c.f.resultDisc == Some(DISC_COMPLEX) && c.f.usesRetarea
  {
    var m0 := Marshalled(c, c.mem0, |c.f.params|);
    AnswerFits(c, Proposed(c, m0));
    CtxFacts(c);
    var answer := ProbeAnswer(c, Proposed(c, m0));
    [NewReply(0), Proposal(c, m0), answer, Obscures(c, answer.mem)]
  }

  /** Without room, the result ends above the list of arguments. */
  lemma EndAboveList(c: Ctx)
    requires Callable(c) && c.f.usesRetarea && !Roomy(c.f)
    ensures Spacious(c) && ListEnd(c) < ResultEnd(c) <= |c.mem0|
  {
    hide OrigFits, StringsIn, RetSize, Consistent, Extent, Size, AlignUp;
    CtxFacts(c);
    ExtentFits(ResultLayout(c.f));
    MarkAligned(c.RetAddr(), RetSize(c.f.resultFlats));
  }

  lemma MarkAligned(ret: nat, size: nat)
    requires ret % 8 == 0
    ensures AlignUp(ret + size, 8) == ret + AlignUp(size, 8)
  {
    assert (ret + AlignUp(size, 8)) % 8 == 0;
  }

  /** Without room there is a call that hands the target's result through, and another value is read. */
  lemma ResultLost(c: Ctx)
    requires Callable(c) && c.f.resultDisc == Some(DISC_COMPLEX) && c.f.usesRetarea && Formed(ResultLayout(c.f))
    requires !Roomy(c.f)
    ensures Spacious(c) && HandedThrough(c, Losing(c)) && !Reaches(c, Losing(c))
  {
    hide Callable, Lower, Lift, Holds, Probe, Formed, Extent, Size, Proposed, Obscured, Marshalled, AcceptedAtLast,
      CallRun, Roomy, Spacious, ListEnd, ListAddr, ResultEnd, CallsTarget, BeforeFits, TargetFits, AfterFits, Last,
      Load;
    EndAboveList(c);
    LosingFits(c);
    var script, l := Losing(c), ResultLayout(c.f);
    ComplexAccept(c, script);
    var m2, m3 := script[2].mem, script[3].mem;
    EndTells(c, m2, m3);
    assert !Reaches(c, script) by {
      if CallRun(c, script).Next? {
        WholeReturned(c, CallRun(c, script).m, script[2].result);
      }
    }
  }

  lemma LosingFits(c: Ctx)
    requires Spacious(c) && c.f.resultDisc == Some(DISC_COMPLEX) && c.f.usesRetarea && Formed(ResultLayout(c.f))
    requires ListEnd(c) < ResultEnd(c) <= |c.mem0|
    ensures var script := Losing(c);
            && HandedThrough(c, script) && Last(c, script) == script
            && script[2].result == Whole(Probe(ResultLayout(c.f))) && script[3].mem == Obscured(c, script[2].mem)
            && |script[2].mem| == |c.mem0|
            && Lift(script[2].mem, ResultLayout(c.f), c.RetAddr()) == Some(Probe(ResultLayout(c.f)))
  {
    hide Lower, Lift, Probe, Formed, Extent, Size, Proposed, Obscured, Marshalled, ListEnd, ResultEnd, BeforeFits,
      TargetFits, AfterFits, Load, CallsTarget, OrigFits, StringsIn, Consistent;
    var m0 := Marshalled(c, c.mem0, |c.f.params|);
    CtxFacts(c);
    ProposalFits(c, m0);
    AnswerFits(c, Proposed(c, m0));
    var script := Losing(c);
    ObscuresFits(c, script[2].mem);
    ObscuredReads(c, script[2].mem);
    hide Spacious, Callable;
    OneRound(c, script);
  }

  lemma ResultNotEmpty(c: Ctx)
    requires ListEnd(c) < ResultEnd(c)
    ensures Extent(ResultLayout(c.f)) > 0
  {
    hide Extent, RetSize;
  }

  /** A changed last byte shows. */
  lemma EndTells(c: Ctx, m2: Mem, m3: Mem)
    requires Callable(c) && Formed(ResultLayout(c.f)) && c.f.usesRetarea && |m2| == |c.mem0|
    requires ListEnd(c) < ResultEnd(c) <= |m2| && m3 == Obscured(c, m2)
    requires Lift(m2, ResultLayout(c.f), c.RetAddr()) == Some(Probe(ResultLayout(c.f)))
    ensures Lift(m3, ResultLayout(c.f), c.RetAddr()) != Some(Probe(ResultLayout(c.f)))
  {
    hide Lift, Probe, Formed, Load, Obscured, Callable, Extent, HostWrote, ListEnd;
    ObscuredReads(c, m2);
    ResultNotEmpty(c);
    if Lift(m3, ResultLayout(c.f), c.RetAddr()) == Some(Probe(ResultLayout(c.f))) {
      ProbeTells(m2, m3, ResultLayout(c.f), c.RetAddr());
    }
  }
}
