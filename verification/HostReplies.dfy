/** Replies that a host can give to any call: advice that proceeds, a target that answers, advice that accepts. */
module HostReplies {
  import opened Wrappers
  import opened Memory
  import opened CanonicalAbi
  import opened Layouts
  import opened Signature
  import opened Protocol
  import opened CoreWasm
  import opened InterceptorArea
  import opened InterceptorEntry
  import opened InterceptorBefore
  import opened InterceptorModule

  // ---- Advice that proceeds -----------------------------------------------------------------------------------

  /** The first address the host allocates at once the work areas are laid out. */
  function ListAddr(c: Ctx): nat {
    AlignUp(c.Mark(), 8)
  }

  function ListEnd(c: Ctx): nat {
    ListAddr(c) + 32 * |c.f.params|
  }

  /** There is room for one list of arguments besides the work areas. */
  predicate Spacious(c: Ctx) {
    Callable(c) && ListEnd(c) <= |c.mem0|
  }

  /** What the host writes for `before`: the action and the list's address, and records of nameless zeros. */
  function ProposedByte(c: Ctx, m: Mem, i: nat): Byte
    requires i < |m| && Spacious(c) && |c.f.paramDiscs| == |c.f.params|
  {
    if c.BeforeAddr() <= i < c.BeforeAddr() + 32 then
      (if 8 <= i - c.BeforeAddr() < 12 then ToLE(ListAddr(c), 4)[i - c.BeforeAddr() - 8] else 0)
    else if ListAddr(c) <= i < ListEnd(c) then
      (if (i - ListAddr(c)) % 32 == 16 then c.f.paramDiscs[(i - ListAddr(c)) / 32] % 256 else 0)
    else m[i]
  }

  function Proposed(c: Ctx, m: Mem): (r: Mem)
    requires Spacious(c) && |m| == |c.mem0|
    ensures |r| == |m|
  {
    CtxFacts(c);
    seq(|m|, i requires 0 <= i < |m| => ProposedByte(c, m, i))
  }

  lemma ZeroWord(m: Mem, a: nat)
    requires a + 4 <= |m| && m[a] == 0 && m[a + 1] == 0 && m[a + 2] == 0 && m[a + 3] == 0
    ensures W32(m, a) == 0
  {
    FourBytes(0, 0, 0, 0);
    assert m[a..a + 4] == [0, 0, 0, 0];
  }

  /** Four bytes that spell a number are that number's word. */
  lemma SpelledWord(m: Mem, a: nat, n: nat)
    requires a + 4 <= |m| && n < T32 && forall j :: 0 <= j < 4 ==> m[a + j] == ToLE(n, 4)[j]
    ensures W32(m, a) == n
  {
    Powers();
    FromToLE(n, 4);
    assert m[a..a + 4] == ToLE(n, 4);
  }

  lemma ProposedReads(c: Ctx, m: Mem)
    requires Spacious(c) && |m| == |c.mem0|
    ensures var p := Proposed(c, m);
            && p[c.BeforeAddr()] == 0 && W32(p, c.BeforeAddr() + 8) == ListAddr(c)
            && HostWrote(m, c.Mark(), p, ListEnd(c), c.BeforeAddr(), 32)
  {
    hide OrigFits, StringsIn, Load, ToLE, RetSize, Consistent, Size;
    CtxFacts(c);
    SpelledWord(Proposed(c, m), c.BeforeAddr() + 8, ListAddr(c));
  }

  lemma ListByte(c: Ctx, m: Mem, k: nat)
    requires Spacious(c) && |m| == |c.mem0| && ListAddr(c) <= k < ListEnd(c)
    ensures |c.f.paramDiscs| == |c.f.params| && k < |m| == |Proposed(c, m)| && (k - ListAddr(c)) / 32 < |c.f.params|
    ensures Proposed(c, m)[k] ==
              if (k - ListAddr(c)) % 32 == 16 then c.f.paramDiscs[(k - ListAddr(c)) / 32] % 256 else 0
  {
    hide OrigFits, StringsIn, ToLE, RetSize, Size, AlignUp;
    CtxFacts(c);
    hide Consistent, Callable;
  }

  lemma RecordByte(c: Ctx, m: Mem, i: nat, j: nat)
    requires Spacious(c) && |m| == |c.mem0| && i < |c.f.params| && j < 32
    ensures |c.f.paramDiscs| == |c.f.params| && c.f.paramDiscs[i] <= 6
    ensures var k := ListAddr(c) + 32 * i + j;
            k < |m| == |Proposed(c, m)| && Proposed(c, m)[k] == if j == 16 then c.f.paramDiscs[i] else 0
  {
    hide Callable, ListAddr, Proposed, Consistent;
    CtxFacts(c);
    SmallDisc(c.f, i);
    InRecord(i, j);
    ListByte(c, m, ListAddr(c) + 32 * i + j);
    assert ListAddr(c) + 32 * i + j - ListAddr(c) == 32 * i + j;
  }

  /** A record of nameless zeros. */
  lemma ProposedRecord(c: Ctx, m: Mem, i: nat)
    requires Spacious(c) && |m| == |c.mem0| && i < |c.f.params|
    ensures |c.f.paramDiscs| == |c.f.params|
    ensures var p, a := Proposed(c, m), ListAddr(c) + 32 * i;
            && a + 32 <= |p| && p[a + 16] == c.f.paramDiscs[i] <= 6
            && W32(p, a) == 0 && W32(p, a + 4) == 0 && W32(p, a + 8) == 0 && W32(p, a + 12) == 0
            && W32(p, a + 24) == 0 && W32(p, a + 28) == 0
  {
    hide Spacious, Load, Proposed, ListAddr, Consistent;
    RecordByte(c, m, i, 31);
    var p, a := Proposed(c, m), ListAddr(c) + 32 * i;
    forall k | a <= k < a + 32
      ensures k < |p| && p[k] == if k == a + 16 then c.f.paramDiscs[i] else 0
    {
      RecordByte(c, m, i, k - a);
    }
    ZeroWord(p, a);
    ZeroWord(p, a + 4);
    ZeroWord(p, a + 8);
    ZeroWord(p, a + 12);
    ZeroWord(p, a + 24);
    ZeroWord(p, a + 28);
  }

  lemma SmallDisc(f: InterceptedFunction, i: nat)
    requires Consistent(f) && i < |f.params|
    ensures |f.paramDiscs| == |f.params| && f.paramDiscs[i] <= 6
  {
  }

  lemma InRecord(i: nat, j: nat)
    requires j < 32
    ensures (32 * i + j) / 32 == i && (32 * i + j) % 32 == j
  {
  }

  function GivenArgs(c: Ctx, m: Mem): (r: seq<Arg>)
    requires Spacious(c) && |m| == |c.mem0|
    ensures |r| == |c.f.params|
  {
    seq(|c.f.params|, i requires 0 <= i < |c.f.params| =>
      Arg([], [], ValueAt(Proposed(c, m), ListAddr(c) + 32 * i + 16)))
  }

  function Proposal(c: Ctx, m: Mem): Reply
    requires Spacious(c) && |m| == |c.mem0|
  {
    BeforeReply(Proceed(GivenArgs(c, m)), Proposed(c, m), ListEnd(c))
  }

  /** Every call can be answered so, whatever its parameters: each argument is of the declared kind. */
  lemma ProposalFits(c: Ctx, m: Mem)
    requires Spacious(c) && |m| == |c.mem0|
    ensures BeforeFits(c, m, c.Mark(), Proposal(c, m)) && CallsTarget(c, Proposal(c, m))
  {
    hide OrigFits, StringsIn, Load, Proposed, HostWrote, RetSize, Size;
    CtxFacts(c);
    ProposedReads(c, m);
    var p, args := Proposed(c, m), GivenArgs(c, m);
    forall i | 0 <= i < |args|
      ensures ArgAt(p, ListAddr(c) + 32 * i) == Some(args[i]) && Tag(args[i].value) == c.f.paramDiscs[i]
    {
      ProposedRecord(c, m, i);
      assert p[0..0] == [];
      ZeroTag(p, ListAddr(c) + 32 * i + 16);
    }
    hide ArgAt, Consistent;
    assert ListAt(p, c.Mark(), ListEnd(c), ListAddr(c), args);
  }

  /** A zero payload makes a value of any kind. */
  lemma ZeroTag(m: Mem, a: nat)
    requires a + 16 <= |m| && m[a] <= 6 && W32(m, a + 8) == 0 && W32(m, a + 12) == 0
    ensures Tag(ValueAt(m, a)) == m[a]
  {
    hide Load;
  }

  // ---- A target that answers ----------------------------------------------------------------------------------

  lemma SilenceFits(c: Ctx, m: Mem, heap: nat)
    requires Callable(c) && c.f.result.None? && heap <= |m|
    ensures c.f.resultDisc.None? && TargetFits(c, m, heap, TargetReply(NoResult, m, heap))
  {
    CtxFacts(c);
    hide OrigFits, StringsIn;
  }

  /** The target answers with a value without elements, stored as the canonical ABI has it. */
  function ProbeAnswer(c: Ctx, m: Mem): Reply
    requires Callable(c) && Formed(ResultLayout(c.f))
    requires Lower(m, ListEnd(c), ResultLayout(c.f), c.RetAddr(), Probe(ResultLayout(c.f))).Some?
  {
    var r := Lower(m, ListEnd(c), ResultLayout(c.f), c.RetAddr(), Probe(ResultLayout(c.f))).value;
    TargetReply(Whole(Probe(ResultLayout(c.f))), r.0, r.1)
  }

  lemma AnswerFits(c: Ctx, m: Mem)
    requires Spacious(c) && |m| == |c.mem0| && Formed(ResultLayout(c.f))
    requires c.f.resultDisc == Some(DISC_COMPLEX) && c.f.usesRetarea
    ensures Lower(m, ListEnd(c), ResultLayout(c.f), c.RetAddr(), Probe(ResultLayout(c.f))).Some?
    ensures var r := ProbeAnswer(c, m);
            && TargetFits(c, m, ListEnd(c), r) && r.heap == ListEnd(c) && |r.mem| == |m|
            && Lift(r.mem, ResultLayout(c.f), c.RetAddr()) == Some(Probe(ResultLayout(c.f)))
  {
    hide OrigFits, StringsIn, RetSize, Lower, Lift, Holds, Size, Extent, Probe, Formed;
    CtxFacts(c);
    hide Consistent, Callable;
    var l, h, ret := ResultLayout(c.f), ListEnd(c), c.RetAddr();
    ProbeLowers(m, h, l, ret);
    LowerHolds(m, h, l, ret, Probe(l));
    LowerWrote(m, h, l, ret, Probe(l));
    ExtentFits(l);
    var r := ProbeAnswer(c, m);
    HoldsLift(r.mem, h, h, l, ret, Probe(l));
    assert HostWrote(m, h, r.mem, r.heap, ret, Size(l));
  }

  // ---- Advice that accepts ------------------------------------------------------------------------------------

  /** Acceptance without a value, in an area of zeros. */
  function Assent(c: Ctx, m: Mem, heap: nat): Reply {
    AfterReply(Accept(false, Junk(0, 0, 0)), seq(|m|, i requires 0 <= i < |m| =>
                 if c.AfterAddr() <= i < c.AfterAddr() + 32 then 0 else m[i]), heap)
  }

  lemma AssentFits(c: Ctx, m: Mem, heap: nat)
    requires Callable(c) && |m| == |c.mem0| && heap <= |m|
    ensures AfterFits(c, m, heap, Assent(c, m, heap)) && Assent(c, m, heap).mem[c.AfterAddr() + 16] == 0
  {
    hide OrigFits, StringsIn, Load, RetSize, Size;
    CtxFacts(c);
    hide Consistent;
    var r := Assent(c, m, heap).mem;
    ZeroWord(r, c.AfterAddr() + 24);
    ZeroWord(r, c.AfterAddr() + 28);
  }

  /** Replies that make up a call of one round. */
  lemma OneRound(c: Ctx, script: seq<Reply>)
    requires Callable(c) && |script| == 4 && RoundFits(c, Marshalled(c, c.mem0, |c.f.params|), script)
    requires CallsTarget(c, script[1]) && script[3].AfterReply? && script[3].after.Accept?
    ensures AcceptedAtLast(c, script) && Last(c, script) == script
  {
    hide RoundFits, Callable, CallsTarget, Marshalled;
  }
}
