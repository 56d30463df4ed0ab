/** The first half of an iteration: construct the invocation, ask `before`, skip. */
module InterceptorBefore {
  import opened Wrappers
  import opened Memory
  import opened Layouts
  import opened Signature
  import opened Protocol
  import opened CoreWasm
  import opened Generator
  import opened InterceptorEntry
  import opened InterceptorSlots

  /** What a callable context fixes about its numbers. */
  lemma CtxFacts(c: Ctx)
    requires Callable(c)
    ensures Consistent(c.f) && Emittable(c.f, c.s)
    ensures c.heap0 <= c.Base() && c.Base() % 8 == 0 && c.BeforeAddr() % 8 == 0 && c.AfterAddr() % 8 == 0
              && c.RetAddr() % 8 == 0
    ensures c.RetAddr() <= c.Mark() <= |c.mem0| <= 65536
    ensures c.f.usesRetarea ==> c.RetAddr() + Size(ResultLayout(c.f)) <= |c.mem0|
    ensures c.s.fnameOff + c.s.fnameLen <= c.heap0 && c.mem0[c.s.fnameOff..c.s.fnameOff + c.s.fnameLen] == c.f.funcName
  {
    hide OrigFits, InScope, DiscFits, Concat, AreaEnd, TypeName;
  }

  /** The host's writes reach neither low memory nor, above its own area, anything older than its heap. */
  lemma LowKept(c: Ctx, m: Mem, heap: nat, m': Mem, heap': nat, ret: nat, size: nat)
    requires Low(c, m) && HostWrote(m, heap, m', heap', ret, size) && c.heap0 <= ret && c.heap0 <= heap
    ensures Low(c, m')
  {
    assert forall i :: 0 <= i < c.heap0 ==> m'[i] == m[i];
    assert m'[..c.heap0] == m[..c.heap0];
  }

  /** The loop's state once `before` has answered with `action`. */
  ghost predicate Answered(c: Ctx, m: Machine, action: BeforeAction, h: nat) {
    && Framed(c, m)
    && c.Mark() <= m.heap <= |m.mem|
    && Local_(m, Handle) == h
    && c.BeforeAddr() + 32 <= |m.mem|
    && Local_(m, Disc) == m.mem[c.BeforeAddr()]
    && BeforeAt(m.mem, c.Mark(), m.heap, c.BeforeAddr(), |c.f.params|, action)
  }

  lemma StepNewOk(c: Ctx, m: Machine, args: seq<Arg>)
    requires Framed(c, m) && |args| == |c.f.params| && ArgsAt(m.mem, Local_(m, ArgsArea), args)
    ensures var o := Step(c.f, SetNew(Handle, Const32(c.s.fnameOff), Const32(c.s.fnameLen), Get(ArgsArea),
                                      Const32(|c.f.params|)), m);
            if m.script == [] || !m.script[0].NewReply? then o.Waiting?
            else var h := m.script[0].handle;
              o == Next(m.(locals := m.locals[Handle := h], script := m.script[1..],
                           trace := m.trace + [New(c.f.funcName, args, h)]))
  {
    hide Step, Run, ArgsAt, Callable, StepNew, Consistent, Size, LayoutOf, Concat, TextAt, Emittable, RetSize, AlignUp;
    CtxFacts(c);
    StepHost(c.f, m);
    assert Eval(Const32(c.s.fnameOff), m) == Some(c.s.fnameOff) && Eval(Const32(c.s.fnameLen), m) == Some(c.s.fnameLen);
    ParamsFit(c);
    assert Eval(Const32(|c.f.params|), m) == Some(|c.f.params|);
    TextKept(c.mem0, m.mem, c.s.fnameOff, c.s.fnameLen, c.heap0);
    StepNewIs(c.f, Handle, Const32(c.s.fnameOff), Const32(c.s.fnameLen), Get(ArgsArea), Const32(|c.f.params|), m,
              c.s.fnameOff, c.s.fnameLen, Local_(m, ArgsArea), args, c.f.funcName);
  }

  lemma ParamsFit(c: Ctx)
    requires Callable(c)
    ensures |c.f.params| < T32
  {
    CtxFacts(c);
  }

  lemma StepNewIs(f: InterceptedFunction, l: Local, name: Expr, len: Expr, list: Expr, count: Expr, m: Machine,
                  p: nat, n: nat, a: nat, args: seq<Arg>, text: seq<Byte>)
    requires Eval(name, m) == Some(p) && Eval(len, m) == Some(n) && Eval(list, m) == Some(a)
              && Eval(count, m) == Some(|args|)
    requires TextAt(m.mem, p, n) == Some(text) && ArgsAt(m.mem, a, args)
    ensures StepNew(f, l, name, len, list, count, m) ==
            if m.script == [] || !m.script[0].NewReply? then Waiting
            else Next(m.(locals := m.locals[l := m.script[0].handle], script := m.script[1..],
                         trace := m.trace + [New(text, args, m.script[0].handle)]))
  {
    hide ArgsAt, TextAt, Eval, Listed;
    ListedIs(m.mem, a, args);
  }

  lemma StepBeforeOk(c: Ctx, m: Machine)
    requires Framed(c, m) && m.heap == c.Mark()
    ensures var o := Step(c.f, CallBefore(Get(Handle), Get(BeforeRet)), m);
            if m.script == [] || !BeforeFits(c, m.mem, m.heap, m.script[0]) then o.Waiting?
            else
            (&& o.Next?
             && o.m == m.(mem := m.script[0].mem, heap := m.script[0].heap, script := m.script[1..],
                          trace := m.trace + [Before(Local_(m, Handle))])
             && Framed(c, o.m) && c.Mark() <= o.m.heap <= |o.m.mem| && c.BeforeAddr() + 32 <= |o.m.mem|
             && BeforeAt(o.m.mem, m.heap, o.m.heap, c.BeforeAddr(), |c.f.params|, m.script[0].before))
  {
    hide Step, Run, Callable, BeforeAt;
    CtxFacts(c);
    StepHost(c.f, m);
    if m.script != [] && m.script[0].BeforeReply? {
      var r := m.script[0];
      if HostWrote(m.mem, m.heap, r.mem, r.heap, c.BeforeAddr(), 32) {
        LowKept(c, m.mem, m.heap, r.mem, r.heap, c.BeforeAddr(), 32);
      }
    }
  }

  /** How the first section ends. */
  ghost predicate BeginEnds(c: Ctx, m: Machine, args: seq<Arg>, o: End) {
    if |m.script| < 2 || !m.script[0].NewReply? || !BeforeFits(c, m.mem, c.Mark(), m.script[1]) then o.Waiting?
    else
      var h := m.script[0].handle;
      var begun := m.trace + [New(c.f.funcName, args, h), Before(h)];
      if m.script[1].before.BeforeError? then o.Trap? && o.why == Unreached && o.m.trace == begun + [Drop(h)]
      else
        && o.Next? && o.m.trace == begun && o.m.script == m.script[2..] && Answered(c, o.m, m.script[1].before, h)
        && o.m.mem == m.script[1].mem && o.m.heap == m.script[1].heap
  }

  /** The constructor reads the whole list before the host can allocate again; the heap starts at the watermark. */
  lemma RunBegin(c: Ctx, m: Machine, args: seq<Arg>)
    requires Framed(c, m) && |args| == |c.f.params| && ArgsAt(m.mem, Local_(m, ArgsArea), args)
    ensures BeginEnds(c, m, args, Run(c.f, Begin(c.f, c.s), 0, m))
  {
    hide Step, Callable, BeforeAt, ArgsAt, Low, Concat;
    CtxFacts(c);
    var f := c.f;
    var code := Begin(f, c.s);
    StepSetHeap(f, Get(Watermark), c.Mark(), m);
    var m1 := m.(heap := c.Mark());
    StepNewOk(c, m1, args);
    var o2 := Step(f, code[1], m1);
    assert Run(f, code, 1, m1) == Run(f, code, 0, m);
    if o2.Waiting? { return; }
    var m2 := o2.m;
    assert Run(f, code, 2, m2) == Run(f, code, 1, m1);
    StepBeforeOk(c, m2);
    var o3 := Step(f, code[2], m2);
    if o3.Waiting? { return; }
    var m3 := o3.m;
    assert Run(f, code, 3, m3) == Run(f, code, 2, m2);
    var b, h := c.BeforeAddr(), m.script[0].handle;
    assert m3.trace == m.trace + [New(f.funcName, args, h), Before(h)];
    assert m3.script == m.script[2..];
    DiscLoad(f, m3, BeforeRet, b);
    var m4 := m3.(locals := m3.locals[Disc := m3.mem[b]]);
    assert Run(f, code, 4, m4) == Run(f, code, 3, m3);
    OnDiscDrop(f, m4, 2);
    BeforeTag(m3.mem, c.Mark(), m3.heap, b, |f.params|, m.script[1].before);
    if m.script[1].before.BeforeError? {
      assert Run(f, code, 4, m4) == Step(f, code[4], m4);
    } else {
      assert Run(f, code, 5, m4) == Next(m4);
    }
  }

  lemma BeforeTag(m: Mem, low: nat, heap: nat, r: nat, n: nat, action: BeforeAction)
    requires r + 32 <= |m| && BeforeAt(m, low, heap, r, n, action)
    ensures m[r] == (match action case Proceed(_) => 0 case Skip(_, _) => 1 case BeforeError => 2)
  {
    hide ArgsAt, SlotAt;
  }

  lemma DiscLoad(f: InterceptedFunction, m: Machine, base: Local, a: nat)
    requires Local_(m, base) == a && a < |m.mem|
    ensures Step(f, Set(Disc, LoadE(I32Load8U, 0, Get(base))), m) == Next(m.(locals := m.locals[Disc := m.mem[a]]))
  {
    hide Step;
    EvalLoad(I32Load8U, 0, Get(base), a, m);
    assert m.mem[a..a + 1] == [m.mem[a]];
    assert FromLE([m.mem[a]]) == m.mem[a] + 256 * FromLE([m.mem[a]][1..]);
    StepSet(f, Disc, LoadE(I32Load8U, 0, Get(base)), m.mem[a], m);
  }

  /** On discriminant `n`: drop the handle and trap. */
  lemma OnDiscDrop(f: InterceptedFunction, m: Machine, n: nat)
    requires n < T32
    ensures Step(f, OnDisc(n, [DROP_HANDLE, Unreachable]), m) ==
            if Local_(m, Disc) == n then Trap(Unreached, m.(trace := m.trace + [Drop(Local_(m, Handle))])) else Next(m)
  {
    hide Step;
    var code := [DROP_HANDLE, Unreachable];
    StepIf(f, Eq(Get(Disc), Const32(n)), code, if Local_(m, Disc) == n then 1 else 0, m);
    StepDrop(f, Get(Handle), Local_(m, Handle), m);
    var m1 := m.(trace := m.trace + [Drop(Local_(m, Handle))]);
    StepJump(f, m1);
    assert Run(f, code, 1, m1) == Trap(Unreached, m1);
  }

  /** Dropping the handle and leaving. */
  lemma DropAndLeave(f: InterceptedFunction, m: Machine)
    ensures Run(f, [DROP_HANDLE, BrDone], 0, m) == ToDone(m.(trace := m.trace + [Drop(Local_(m, Handle))]))
  {
    hide Step;
    StepDrop(f, Get(Handle), Local_(m, Handle), m);
    var m1 := m.(trace := m.trace + [Drop(Local_(m, Handle))]);
    StepJump(f, m1);
    assert Run(f, [DROP_HANDLE, BrDone], 1, m1) == ToDone(m1);
  }

  /** Guarding a slot's tag: a wrong kind runs `code`. */
  lemma TagGuard(f: InterceptedFunction, m: Machine, base: Local, addr: nat, disc: nat, v: Value, code: seq<Instr>)
    requires Local_(m, base) == addr && addr + 32 <= |m.mem| && HoldsValue(m.mem, addr + 16, v) && disc < T32
    ensures Step(f, If(Ne(LoadE(I32Load8U, 16, Get(base)), Const32(disc)), code), m) ==
            if Tag(v) == disc then Next(m) else Run(f, code, 0, m)
  {
    hide Step, Run, Load, HoldsValue;
    TagRead(m.mem, addr + 16, v);
    EvalLoad(I32Load8U, 16, Get(base), addr, m);
    StepIf(f, Ne(LoadE(I32Load8U, 16, Get(base)), Const32(disc)), code, if Tag(v) == disc then 0 else 1, m);
  }

  /** A slot's value becomes the returned value, or memory is full. */
  ghost predicate SlotReturned(c: Ctx, m: Machine, v: Value, o: End) {
    if Tight(c, m.heap) then o.Trap? && o.why == OutOfBounds && o.m.trace == m.trace
    else
      && o.Next? && o.m.trace == m.trace && o.m.script == m.script && Local_(o.m, Handle) == Local_(m, Handle)
      && Low(c, o.m.mem) && Returned(c, o.m, Given(v))
  }

  lemma RunReturnSlot(c: Ctx, m: Machine, base: Local, addr: nat, present: bool, v: Value)
    requires Framed(c, m) && c.Mark() <= m.heap <= |m.mem| && base != Out
    requires Local_(m, base) == addr && addr + 32 <= m.heap
    requires SlotAt(m.mem, m.heap, addr + 8, present, v)
    requires c.f.resultDisc == Some(Tag(v)) && Tag(v) != DISC_COMPLEX
    ensures SlotReturned(c, m, v, Run(c.f, UnwrapOut(Tag(v), FirstFlat(c.f), c.f.usesRetarea, base), 0, m))
  {
    hide Step, Run, Callable, OrigFits, StringsIn;
    CtxFacts(c);
    var disc := Tag(v);
    if disc == DISC_STRING {
      var o := UnwrapText(c, m, base, addr, FirstFlat(c.f));
      if o.Next? {
        TextReturned(c, m, addr, present, v, o.m);
      }
    } else {
      SlotHolds(m.mem, m.heap, addr + 8, present, v);
      assert c.f.resultFlats == [FirstFlat(c.f)];
      UnwrapScalar(c, m, base, addr, disc, FirstFlat(c.f), v);
    }
  }

  lemma TextReturned(c: Ctx, m: Machine, addr: nat, present: bool, v: Value, t: Machine)
    requires Framed(c, m) && c.Mark() <= m.heap <= |m.mem| && c.f.usesRetarea && addr + 32 <= m.heap
    requires SlotAt(m.mem, m.heap, addr + 8, present, v) && Tag(v) == DISC_STRING
    requires var out := AlignUp(m.heap, 8);
             && out + 8 <= |m.mem| == |t.mem| && Local_(t, Out) == out
             && W32(t.mem, out) == W32(m.mem, addr + 24) && W32(t.mem, out + 4) == W32(m.mem, addr + 28)
             && forall i :: 0 <= i < |m.mem| && !(out <= i < out + 8) ==> t.mem[i] == m.mem[i]
    ensures Returned(c, t, Given(v)) && Low(c, t.mem)
  {
    hide Callable, Load;
    CtxFacts(c);
    assert t.mem[..c.heap0] == m.mem[..c.heap0];
    if v.Str? {
      assert present;
      assert t.mem[..m.heap] == m.mem[..m.heap];
      TextKept(m.mem, t.mem, W32(m.mem, addr + 24), W32(m.mem, addr + 28), m.heap);
    }
  }

  /** How an advised skip ends. */
  ghost predicate SkipEnds(c: Ctx, m: Machine, v: Value, o: End) {
    var dropped := m.trace + [Drop(Local_(m, Handle))];
    match c.f.resultDisc
    case None => o.ToDone? && o.m.trace == dropped && Low(c, o.m.mem)
    case Some(disc) =>
      if disc == DISC_COMPLEX then o.Trap? && o.why == Unreached && o.m.trace == m.trace
      else if Tag(v) != disc then o.Trap? && o.why == Unreached && o.m.trace == dropped
      else if Tight(c, m.heap) then o.Trap? && o.why == OutOfBounds && o.m.trace == m.trace
      else o.ToDone? && o.m.trace == dropped && Low(c, o.m.mem) && Returned(c, o.m, Given(v))
  }

  lemma RunSkip(c: Ctx, m: Machine, present: bool, v: Value, h: nat)
    requires Answered(c, m, Skip(present, v), h)
    ensures SkipEnds(c, m, v, Run(c.f, SkipReturn(c.f), 0, m))
  {
    hide Step, Callable, Run, SlotAt, UnwrapOut, Returned, Tight;
    CtxFacts(c);
    var f := c.f;
    var code := SkipReturn(f)[0];
    RunOne(f, code, m);
    assert SkipReturn(f) == [code];
    StepIf(f, code.cond, code.then_, 1, m);
    if f.resultDisc.None? {
      assert code.then_ == [DROP_HANDLE, BrDone];
      DropAndLeave(f, m);
    } else if f.resultDisc.value == DISC_COMPLEX {
      assert UnwrapOut(DISC_COMPLEX, FirstFlat(f), f.usesRetarea, BeforeRet) == [Unreachable] by { ComplexUnwrap(f); }
      assert code.then_ == [Unreachable] + [DROP_HANDLE, BrDone];
      RunFirst(f, Unreachable, [DROP_HANDLE, BrDone], m);
      StepJump(f, m);
    } else {
      var disc := f.resultDisc.value;
      var unwrap := UnwrapOut(disc, FirstFlat(f), f.usesRetarea, BeforeRet);
      var guard := If(Ne(LoadE(I32Load8U, 16, Get(BeforeRet)), Const32(disc)), [DROP_HANDLE, Unreachable]);
      assert code.then_ == [guard] + (unwrap + [DROP_HANDLE, BrDone]);
      RunGuardedSkip(c, m, present, v, guard, unwrap);
    }
  }

  lemma ComplexUnwrap(f: InterceptedFunction)
    ensures UnwrapOut(DISC_COMPLEX, FirstFlat(f), f.usesRetarea, BeforeRet) == [Unreachable]
  {
  }

  lemma RunGuardedSkip(c: Ctx, m: Machine, present: bool, v: Value, guard: Instr, unwrap: seq<Instr>)
    requires Framed(c, m) && c.Mark() <= m.heap <= |m.mem| && c.BeforeAddr() + 32 <= |m.mem|
    requires SlotAt(m.mem, m.heap, c.BeforeAddr() + 8, present, v)
    requires c.f.resultDisc.Some? && c.f.resultDisc.value != DISC_COMPLEX
    requires guard == If(Ne(LoadE(I32Load8U, 16, Get(BeforeRet)), Const32(c.f.resultDisc.value)),
                         [DROP_HANDLE, Unreachable])
    requires unwrap == UnwrapOut(c.f.resultDisc.value, FirstFlat(c.f), c.f.usesRetarea, BeforeRet)
    ensures SkipEnds(c, m, v, Run(c.f, [guard] + (unwrap + [DROP_HANDLE, BrDone]), 0, m))
  {
    hide Step, Callable, Run, UnwrapOut, Returned, Tight, SlotAt, HoldsValue, Low;
    CtxFacts(c);
    var f, disc := c.f, c.f.resultDisc.value;
    RunFirst(f, guard, unwrap + [DROP_HANDLE, BrDone], m);
    SlotHolds(m.mem, m.heap, c.BeforeAddr() + 8, present, v);
    TagGuard(f, m, BeforeRet, c.BeforeAddr(), disc, v, [DROP_HANDLE, Unreachable]);
    hide Framed;
    if Tag(v) != disc {
      DropAndTrap(f, m);
    } else {
      RunSplit(f, unwrap, [DROP_HANDLE, BrDone], 0, m);
      RunReturnSlot(c, m, BeforeRet, c.BeforeAddr(), present, v);
      var o := Run(f, unwrap, 0, m);
      if o.Next? {
        DropAndLeave(f, o.m);
        ReturnedTraced(c, o.m, Given(v), o.m.trace + [Drop(Local_(o.m, Handle))]);
      }
    }
  }

  lemma SlotHolds(m: Mem, heap: nat, a: nat, present: bool, v: Value)
    requires a + 24 <= |m| && SlotAt(m, heap, a, present, v)
    ensures HoldsValue(m, a + 8, v)
  {
    hide ValueAt, Load;
  }

  lemma ReturnedTraced(c: Ctx, m: Machine, ret: Ret, trace: seq<Event>)
    requires Returned(c, m, ret)
    ensures Returned(c, m.(trace := trace), ret)
  {
    hide ToCore, Load, RetSize;
  }

  lemma DropAndTrap(f: InterceptedFunction, m: Machine)
    ensures Run(f, [DROP_HANDLE, Unreachable], 0, m) ==
              Trap(Unreached, m.(trace := m.trace + [Drop(Local_(m, Handle))]))
  {
    hide Step;
    StepDrop(f, Get(Handle), Local_(m, Handle), m);
    var m1 := m.(trace := m.trace + [Drop(Local_(m, Handle))]);
    StepJump(f, m1);
    assert Run(f, [DROP_HANDLE, Unreachable], 1, m1) == Trap(Unreached, m1);
  }

  /** Told to proceed, the skip section does nothing. */
  lemma RunNoSkip(c: Ctx, m: Machine, args: seq<Arg>, h: nat)
    requires Answered(c, m, Proceed(args), h)
    ensures Run(c.f, SkipReturn(c.f), 0, m) == Next(m)
  {
    hide Step, Callable, Run, ArgsAt;
    var code := SkipReturn(c.f)[0];
    RunOne(c.f, code, m);
    assert SkipReturn(c.f) == [code];
    StepIf(c.f, code.cond, code.then_, 0, m);
  }
}
