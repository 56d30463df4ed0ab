/** The second half of an iteration: read the result, ask `after`, then accept, repeat or fail. */
module InterceptorAfter {
  import opened Wrappers
  import opened Memory
  import opened CanonicalAbi
  import opened Layouts
  import opened Signature
  import opened Protocol
  import opened CoreWasm
  import opened Generator
  import opened InterceptorEntry
  import opened InterceptorSlots
  import opened InterceptorBefore
  import opened InterceptorTarget

  /** The result locals mirror the return area. */
  predicate PartsLoaded(c: Ctx, m: Machine, n: nat)
    requires n <= |c.f.resultFlats| && c.RetAddr() + RetSize(c.f.resultFlats) <= |m.mem|
  {
    forall j :: 0 <= j < n ==> PartLoaded(c, m, j)
  }

  predicate PartLoaded(c: Ctx, m: Machine, j: nat)
    requires j < |c.f.resultFlats| && c.RetAddr() + RetSize(c.f.resultFlats) <= |m.mem|
  {
    var flats := c.f.resultFlats;
    SlotInArea(flats, j, |flats|);
    Local_(m, ResultPart(j)) == Load(m.mem, c.RetAddr() + SlotOffset(flats, j), flats[j].Size())
  }

  ghost predicate SameButParts(a: Machine, b: Machine) {
    && b == a.(locals := b.locals)
    && forall l: Local :: !l.ResultPart? ==> Local_(b, l) == Local_(a, l)
  }

  /** Every load of a result component lies inside the return area: none can trap. */
  lemma {:induction false} RunResultLoads(c: Ctx, m: Machine, n: nat)
    requires Framed(c, m) && c.f.usesRetarea && n <= |c.f.resultFlats|
              && c.RetAddr() + RetSize(c.f.resultFlats) <= |m.mem|
    ensures var o := Run(c.f, ResultLoads(c.f, n), 0, m);
            o.Next? && SameButParts(m, o.m) && PartsLoaded(c, o.m, n)
  {
    hide Step, Run, Callable, Load, RetSize, PartLoaded, SlotOffset;
    var f, flats := c.f, c.f.resultFlats;
    if n == 0 {
      RunNone(f, m);
    } else {
      var j := n - 1;
      RunResultLoads(c, m, j);
      var m1 := Run(f, ResultLoads(f, j), 0, m).m;
      var i := Set(ResultPart(j), LoadE(LoadOf(flats[j]), SlotOffset(flats, j), Get(TargetRet)));
      RunThen(f, ResultLoads(f, j), i, m);
      SlotInArea(flats, j, |flats|);
      assert AreaEnd(flats, |flats|) == RetSize(flats) by { hide AreaEnd; RetSizeIs(flats); }
      EvalLoad(LoadOf(flats[j]), SlotOffset(flats, j), Get(TargetRet), c.RetAddr(), m1);
      var v := Load(m1.mem, c.RetAddr() + SlotOffset(flats, j), flats[j].Size());
      StepSet(f, ResultPart(j), i.e, v, m1);
      var m2 := m1.(locals := m1.locals[ResultPart(j) := v]);
      forall k | 0 <= k < n
        ensures PartLoaded(c, m2, k)
      {
        PartKept(c, m1, m2, j, k);
      }
    }
  }

  lemma RetSizeIs(flats: seq<WT>)
    ensures RetSize(flats) == AreaEnd(flats, |flats|)
  {
  }

  lemma PartKept(c: Ctx, m1: Machine, m2: Machine, j: nat, k: nat)
    requires k <= j < |c.f.resultFlats| && c.RetAddr() + RetSize(c.f.resultFlats) <= |m1.mem|
    requires k < j ==> PartLoaded(c, m1, k)
    requires SlotOffset(c.f.resultFlats, j) + c.f.resultFlats[j].Size() <= RetSize(c.f.resultFlats)
    requires m2 == m1.(locals := m1.locals[ResultPart(j) :=
                         Load(m1.mem, c.RetAddr() + SlotOffset(c.f.resultFlats, j), c.f.resultFlats[j].Size())])
    ensures PartLoaded(c, m2, k)
  {
    hide Load, RetSize, SlotOffset;
  }

  /** The answer with its components in locals, ready to be told. */
  ghost predicate Ready(c: Ctx, m: Machine, r: TargetResult) {
    && Answer(c, m, r)
    && (r.TextResult? ==>
         Local_(m, ResultPart(0)) == W32(m.mem, c.RetAddr()) && Local_(m, ResultPart(1)) == W32(m.mem, c.RetAddr() + 4))
  }

  lemma PartsReady(c: Ctx, m: Machine, m': Machine, r: TargetResult)
    requires Answer(c, m, r) && c.f.usesRetarea && SameButParts(m, m')
    requires PartsLoaded(c, m', |c.f.resultFlats|)
    ensures Ready(c, m', r)
  {
    hide Load, Callable;
    if r.TextResult? {
      CtxFacts(c);
      assert c.f.resultFlats == [I32, I32];
      assert PartLoaded(c, m', 0) && PartLoaded(c, m', 1);
      assert SlotOffset(c.f.resultFlats, 0) == 0 && SlotOffset(c.f.resultFlats, 1) == 4;
    }
  }

  predicate TellsBy(m: Machine, i: Instr, told: Option<Value>) {
    && i.CallAfter? && i.handle == Get(Handle) && i.ret == Get(AfterRet)
    && Eval(i.some, m).Some? && Eval(i.tag, m).Some? && Eval(i.wide, m).Some? && Eval(i.narrow, m).Some?
    && ToldAt(m.mem, Eval(i.some, m).value, Eval(i.tag, m).value, Eval(i.wide, m).value, Eval(i.narrow, m).value) ==
         told
  }

  lemma ToldScalar(f: InterceptedFunction, m: Machine, disc: nat, flat: WT, bits: nat)
    requires f.resultDisc == Some(disc) && IsScalar(disc) && f.resultFlats == [flat] && DiscFits(disc, [flat])
    requires CoreFits(disc, flat, bits) && Local_(m, ResultVal) == bits
    ensures TellsBy(m, CallTheAfter(f), Some(FromCore(disc, flat, bits)))
  {
    hide TextAt;
    assert [flat][0] == flat && [I32][0] == I32 && [I64][0] == I64 && [F32][0] == F32 && [F64][0] == F64
      && |[I32, I32]| == 2;
    assert Eval(Get(ResultVal), m) == Some(bits);
    assert Eval(ReinterpretF32(Get(ResultVal)), m) == Some(bits);
  }

  /** The result as flattened for `after` is the result the protocol tells. */
  lemma ToldIs(c: Ctx, m: Machine, r: TargetResult)
    requires Ready(c, m, r)
    ensures TellsBy(m, CallTheAfter(c.f), Told(c.f, r))
  {
    hide Load, Callable, RetSize, Low, FromCore, DiscFits, CoreFits, Concat, AlignUp;
    CtxFacts(c);
    if c.f.resultDisc.Some? {
      var disc := c.f.resultDisc.value;
      if disc == DISC_COMPLEX {
        assert m.mem[0..0] == [];
      } else if disc == DISC_STRING {
        assert r.TextResult? by { TextDisc(c.f); }
        WordBound(m.mem, c.RetAddr());
        var p, n := W32(m.mem, c.RetAddr()), W32(m.mem, c.RetAddr() + 4);
        assert Eval(Get(ResultPart(0)), m) == Some(p) && Eval(Get(ResultPart(1)), m) == Some(n);
        assert Eval(ExtendU(Get(ResultPart(0))), m) == Some(p);
        assert ToldAt(m.mem, 1, DISC_STRING, p, n) == Some(Str(r.text));
      } else {
        ScalarDisc(c.f);
        ToldScalar(c.f, m, disc, FirstFlat(c.f), r.bits);
      }
    }
  }

  lemma TextDisc(f: InterceptedFunction)
    requires Consistent(f) && f.resultDisc == Some(DISC_STRING)
    ensures f.usesRetarea
  {
  }

  lemma ScalarDisc(f: InterceptedFunction)
    requires Consistent(f) && f.resultDisc.Some? && f.resultDisc.value != DISC_STRING
              && f.resultDisc.value != DISC_COMPLEX
    ensures IsScalar(f.resultDisc.value) && f.resultFlats == [FirstFlat(f)] && !f.usesRetarea
              && DiscFits(f.resultDisc.value, [FirstFlat(f)])
  {
  }

  /** What survives the call to `after`: the frame, and the target's scalar. */
  ghost predicate Judged(c: Ctx, m: Machine, r: TargetResult, action: AfterAction, h: nat) {
    && Framed(c, m)
    && c.Mark() <= m.heap <= |m.mem|
    && c.AfterAddr() + 32 <= |m.mem|
    && Local_(m, Handle) == h
    && AfterAt(m.mem, c.Mark(), m.heap, c.AfterAddr(), |c.f.params|, action)
    && ResultFits(c.f, r)
    && (r.Scalar? && c.f.resultDisc.Some? ==> Local_(m, ResultVal) == r.bits)
  }

  lemma StepAfterOk(c: Ctx, m: Machine, r: TargetResult, h: nat)
    requires Ready(c, m, r) && Local_(m, Handle) == h
    ensures var o := Step(c.f, CallTheAfter(c.f), m);
            if m.script == [] || !AfterFits(c, m.mem, m.heap, m.script[0]) then o.Waiting?
            else
              && o.Next?
              && o.m == m.(mem := m.script[0].mem, heap := m.script[0].heap, script := m.script[1..],
                           trace := m.trace + [After(h, Told(c.f, r))])
              && Judged(c, o.m, r, m.script[0].after, h)
  {
    hide Step, Run, Callable, AfterAt, RetSize, Load, ToldAt, CallTheAfter, Eval, Told, Ready;
    ReadyAnswer(c, m, r);
    CtxFacts(c);
    ToldIs(c, m, r);
    StepHost(c.f, m);
    assert Eval(Get(Handle), m) == Some(h) && Eval(Get(AfterRet), m) == Some(c.AfterAddr()) by {
      EvalGet(m, Handle); EvalGet(m, AfterRet); }
    var o := Step(c.f, CallTheAfter(c.f), m);
    if !o.Waiting? {
      var reply := m.script[0];
      LowKept(c, m.mem, m.heap, reply.mem, reply.heap, c.AfterAddr(), 32);
      AnswerFits(c, m, r);
      FromMark(c, reply.mem, m.heap, reply.heap, reply.after);
    }
  }

  lemma ReadyAnswer(c: Ctx, m: Machine, r: TargetResult)
    requires Ready(c, m, r)
    ensures Answer(c, m, r)
  {
    hide Answer, Load;
  }

  lemma EvalGet(m: Machine, l: Local)
    ensures Eval(Get(l), m) == Some(Local_(m, l))
  {
  }

  lemma AnswerFits(c: Ctx, m: Machine, r: TargetResult)
    requires Answer(c, m, r)
    ensures ResultFits(c.f, r) && c.Mark() <= m.heap
  {
    hide Load, Callable, TextAt;
  }

  /** Blocks taken after the target's answer were taken above the watermark. */
  lemma FromMark(c: Ctx, m: Mem, low: nat, heap: nat, action: AfterAction)
    requires c.AfterAddr() + 32 <= |m| && c.Mark() <= low
    requires AfterAt(m, low, heap, c.AfterAddr(), |c.f.params|, action)
    ensures AfterAt(m, c.Mark(), heap, c.AfterAddr(), |c.f.params|, action)
  {
    hide ArgsAt, SlotAt;
  }

  /** How `after` and its dispatch end. */
  ghost predicate DispatchEnds(c: Ctx, m: Machine, r: TargetResult, h: nat, o: End) {
    if m.script == [] || !AfterFits(c, m.mem, m.heap, m.script[0]) then o.Waiting?
    else
      var told := m.trace + [After(h, Told(c.f, r))];
      match m.script[0].after
      case AfterError => o.Trap? && o.why == Unreached && o.m.trace == told + [Drop(h)]
      case Repeat(again) =>
        && o.ToRetry? && o.m.trace == told + [Drop(h)] && o.m.script == m.script[1..] && o.m.mem == m.script[0].mem
        && Framed(c, o.m) && |again| == |c.f.params| && ArgsAt(o.m.mem, Local_(o.m, ArgsArea), again)
      case Accept(_, _) =>
        && o.Next? && o.m.trace == told && o.m.script == m.script[1..] && o.m.heap == m.script[0].heap
        && o.m.mem == m.script[0].mem
        && Judged(c, o.m, r, m.script[0].after, h)
  }

  lemma AfterTag(m: Mem, low: nat, heap: nat, r: nat, n: nat, action: AfterAction)
    requires r + 32 <= |m| && AfterAt(m, low, heap, r, n, action)
    ensures m[r] == (match action case Accept(_, _) => 0 case Repeat(_) => 1 case AfterError => 2)
    ensures action.Repeat? ==> |action.args| == n && ArgsAt(m, W32(m, r + 8), action.args)
  {
    hide ArgsAt, SlotAt;
  }

  /** On repeat, the advice's list becomes the argument area and the loop starts over. */
  lemma RepeatBranch(f: InterceptedFunction, m: Machine, a: nat)
    requires Local_(m, AfterRet) == a && a + 32 <= |m.mem|
    ensures Run(f, [Set(ArgsArea, LoadE(I32Load, 8, Get(AfterRet))), DROP_HANDLE, BrRetry], 0, m) ==
            ToRetry(m.(locals := m.locals[ArgsArea := W32(m.mem, a + 8)], trace := m.trace + [Drop(Local_(m, Handle))]))
  {
    hide Step, Load;
    var code := [Set(ArgsArea, LoadE(I32Load, 8, Get(AfterRet))), DROP_HANDLE, BrRetry];
    EvalLoad(I32Load, 8, Get(AfterRet), a, m);
    StepSet(f, ArgsArea, LoadE(I32Load, 8, Get(AfterRet)), W32(m.mem, a + 8), m);
    var m1 := m.(locals := m.locals[ArgsArea := W32(m.mem, a + 8)]);
    StepDrop(f, Get(Handle), Local_(m, Handle), m1);
    var m2 := m1.(trace := m1.trace + [Drop(Local_(m, Handle))]);
    StepJump(f, m2);
    assert Run(f, code, 2, m2) == ToRetry(m2);
    assert Run(f, code, 1, m1) == ToRetry(m2);
  }

  lemma RunAfterDispatch(c: Ctx, m: Machine, r: TargetResult, h: nat)
    requires Ready(c, m, r) && Local_(m, Handle) == h
    ensures DispatchEnds(c, m, r, h, Run(c.f, AfterDispatch(c.f), 0, m))
  {
    hide Step, Callable, CallTheAfter, AfterAt, ArgsAt, RetSize, Load, Ready, Told;
    var f := c.f;
    var code := AfterDispatch(f);
    StepAfterOk(c, m, r, h);
    var o1 := Step(f, code[0], m);
    if o1.Waiting? { return; }
    var m1 := o1.m;
    assert Run(f, code, 0, m) == Run(f, code, 1, m1);
    DiscLoad(f, m1, AfterRet, c.AfterAddr());
    var m2 := m1.(locals := m1.locals[Disc := m1.mem[c.AfterAddr()]]);
    assert Run(f, code, 1, m1) == Run(f, code, 2, m2);
    var action := m.script[0].after;
    AfterTag(m1.mem, c.Mark(), m1.heap, c.AfterAddr(), |f.params|, action);
    OnDiscDrop(f, m2, 2);
    if action.AfterError? {
      assert Run(f, code, 2, m2) == Step(f, code[2], m2);
    } else {
      assert Run(f, code, 2, m2) == Run(f, code, 3, m2);
      StepIf(f, code[3].cond, code[3].then_, if Local_(m2, Disc) == 1 then 1 else 0, m2);
      if action.Repeat? {
        RepeatBranch(f, m2, c.AfterAddr());
        assert Run(f, code, 3, m2) == Step(f, code[3], m2);
      } else {
        assert Run(f, code, 3, m2) == Run(f, code, 4, m2) == Next(m2);
      }
    }
  }

  /** How an accepted result ends. */
  ghost predicate AcceptEnds(c: Ctx, m: Machine, r: TargetResult, v: Value, h: nat, o: End) {
    var dropped := m.trace + [Drop(h)];
    match c.f.resultDisc
    case None => o.ToDone? && o.m.trace == dropped && Low(c, o.m.mem)
    case Some(disc) =>
      if Tag(v) != disc then o.Trap? && o.why == Unreached && o.m.trace == m.trace
      else if disc == DISC_COMPLEX then o.ToDone? && o.m.trace == dropped && Low(c, o.m.mem)
        && o.m.mem == m.mem && Returned(c, o.m, FromTarget(r))
      else if Tight(c, m.heap) then o.Trap? && o.why == OutOfBounds && o.m.trace == m.trace
      else o.ToDone? && o.m.trace == dropped && Low(c, o.m.mem) && Returned(c, o.m, Given(v))
  }

  lemma RunAccept(c: Ctx, m: Machine, r: TargetResult, present: bool, v: Value, h: nat)
    requires Judged(c, m, r, Accept(present, v), h)
    ensures AcceptEnds(c, m, r, v, h, Run(c.f, AcceptReturn(c.f) + [DROP_HANDLE, BrDone], 0, m))
  {
    hide Step, Run, Callable, SlotAt, UnwrapOut, Tight, Load, RetSize, ToCore, SlotReturned, Low, Flatten, Size, ListAt,
      HoldsValue;
    CtxFacts(c);
    var f := c.f;
    RunSplit(f, AcceptReturn(f), [DROP_HANDLE, BrDone], 0, m);
    if f.resultDisc.None? {
      RunNone(f, m);
      DropAndLeave(f, m);
    } else {
      var disc := f.resultDisc.value;
      var guard := If(Ne(LoadE(I32Load8U, 16, Get(AfterRet)), Const32(disc)), [Unreachable]);
      var rest := if disc != DISC_COMPLEX then UnwrapOut(disc, FirstFlat(f), f.usesRetarea, AfterRet)
                  else if f.usesRetarea then [Set(Out, Get(TargetRet))] else [Set(Out, Get(ResultVal))];
      assert AcceptReturn(f) == [guard] + rest;
      RunFirst(f, guard, rest, m);
      SlotHolds(m.mem, m.heap, c.AfterAddr() + 8, present, v);
      TagGuard(f, m, AfterRet, c.AfterAddr(), disc, v, [Unreachable]);
      if Tag(v) != disc {
        RunOne(f, Unreachable, m);
        StepJump(f, m);
      } else if disc == DISC_COMPLEX {
        var src := if f.usesRetarea then TargetRet else ResultVal;
        StepSet(f, Out, Get(src), Local_(m, src), m);
        RunOne(f, Set(Out, Get(src)), m);
        var m1 := m.(locals := m.locals[Out := Local_(m, src)]);
        DropAndLeave(f, m1);
      } else {
        RunReturnSlot(c, m, AfterRet, c.AfterAddr(), present, v);
        AcceptGiven(c, m, v, h, Run(f, rest, 0, m));
      }
    }
  }

  lemma AcceptGiven(c: Ctx, m: Machine, v: Value, h: nat, o: End)
    requires SlotReturned(c, m, v, o) && Local_(m, Handle) == h
    ensures if Tight(c, m.heap) then o.Trap? && o.why == OutOfBounds && o.m.trace == m.trace
            else
              && o.Next?
              && var d := Run(c.f, [DROP_HANDLE, BrDone], 0, o.m);
              d.ToDone? && d.m.trace == m.trace + [Drop(h)] && Low(c, d.m.mem) && Returned(c, d.m, Given(v))
  {
    hide Run, Returned, Tight;
    if o.Next? {
      DropAndLeave(c.f, o.m);
      ReturnedTraced(c, o.m, Given(v), o.m.trace + [Drop(Local_(o.m, Handle))]);
    }
  }
}
