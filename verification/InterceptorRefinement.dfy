/** The emitted interceptor refines the advice protocol's loop, on every run. */
module InterceptorRefinement {
  import opened Wrappers
  import opened Memory
  import opened CanonicalAbi
  import opened Layouts
  import opened Signature
  import opened Protocol
  import opened CoreWasm
  import opened Generator
  import opened InterceptorArea
  import opened InterceptorEntry
  import opened InterceptorSlots
  import opened InterceptorBefore
  import opened InterceptorTarget
  import opened InterceptorAfter

  /**
   * A run agrees with the abstract loop: same trace, same trap, same value, and low memory as it was.
   * The one other end is running out of memory for a returned text.
   */
  ghost predicate Agrees(c: Ctx, o: End, abs: Outcome) {
    match o
    case Waiting => true
    case Trap(Unreached, t) => abs == Trapped(t.trace)
    case Trap(OutOfBounds, t) => abs.Done? && abs.ret.Given? && exists h :: abs.trace == t.trace + [Drop(h)]
    case Trap(IllTyped, _) => false
    case ToDone(t) => abs.Done? && abs.trace == t.trace && Low(c, t.mem) && Returned(c, t, abs.ret)
    case ToRetry(_) => false
    case Next(_) => false
  }

  /** Memory runs out just where a given text is to be returned and does not fit. */
  ghost predicate OutOfRoom(c: Ctx, o: End, abs: Outcome, heap: nat) {
    (o.Trap? && o.why == OutOfBounds) <==> (abs.Done? && abs.ret.Given? && Tight(c, heap))
  }

  /** When the target's complex result is returned, memory is as the last reply left it. */
  ghost predicate Untouched(o: End, abs: Outcome, mem: Mem) {
    o.ToDone? && abs.Done? && abs.ret.FromTarget? ==> o.m.mem == mem
  }

  /** One iteration: it ends as the abstract loop does, or asks for another with the advice's new list. */
  ghost predicate IterationEnds(c: Ctx, m: Machine, args: seq<Arg>, o: End)
    requires Callable(c) && |args| == |c.f.params| && |c.orig| == |c.f.params|
    requires |c.f.paramFlats| == |c.f.paramDiscs| == |c.f.params|
  {
    && (o.Waiting? <==> !RoundFits(c, m.mem, m.script))
    && (!o.Waiting? ==> (o.ToRetry? <==> Repeats(c, m.script)))
    && if o.ToRetry? then
         && o.m.mem == m.script[3].mem && o.m.script == m.script[4..]
         && exists again: seq<Arg> ::
              && |again| == |args| && Framed(c, o.m) && ArgsAt(o.m.mem, Local_(o.m, ArgsArea), again)
              && Loop(c.f, c.orig, args, m.script, m.trace) == Loop(c.f, c.orig, again, o.m.script, o.m.trace)
       else
         && Agrees(c, o, Loop(c.f, c.orig, args, m.script, m.trace))
         && (!o.Waiting? ==>
               && OutOfRoom(c, o, Loop(c.f, c.orig, args, m.script, m.trace), RoundHeap(c, m.script))
               && Untouched(o, Loop(c.f, c.orig, args, m.script, m.trace), RoundMem(c, m.script)))
  }

  lemma RunCallTheTarget(c: Ctx, m: Machine, list: nat, given: seq<Arg>, h: nat)
    requires AllBound(c, m, list, given) && KindsMatch(c.f, given) && c.Mark() <= m.heap <= |m.mem|
              && Local_(m, Handle) == h
    ensures var o := Run(c.f, CallTheTarget(c.f), 0, m);
            if m.script == [] || !TargetFits(c, m.mem, m.heap, m.script[0]) then o.Waiting?
            else
              && o.Next? && o.m.mem == m.script[0].mem && o.m.heap == m.script[0].heap
              && o.m.script == m.script[1..] && o.m.trace == m.trace + [Target(TargetArgs(c.f, given, c.orig))]
              && Local_(o.m, Handle) == h && Ready(c, o.m, m.script[0].result)
  {
    hide Step, Run, Callable, AllBound, ResultAt, HostWrote, ResultLoads, CallArgs, RetSize, TargetArgs, KindsMatch,
      Load, PartsLoaded;
    var f := c.f;
    assert Consistent(f) by { BoundFramed(c, m, list, given); CtxFacts(c); }
    var call := CallTheTarget(f)[0];
    assert call.args == CallArgs(f, |f.params|) + (if f.usesRetarea then [Get(TargetRet)] else []) by {
      assert CallArgs(f, |f.params|) + [] == CallArgs(f, |f.params|);
    }
    StepTargetOk(c, m, list, given, call);
    var o := Step(f, call, m);
    if f.usesRetarea {
      RunFirst(f, call, ResultLoads(f, |f.resultFlats|), m);
      if o.Next? {
        RunResultLoads(c, o.m, |f.resultFlats|);
        PartsReady(c, o.m, Run(f, ResultLoads(f, |f.resultFlats|), 0, o.m).m, m.script[0].result);
      }
    } else {
      RunOne(f, call, m);
      assert CallTheTarget(f) == [call];
      if o.Next? {
        ScalarReady(c, o.m, m.script[0].result);
      }
    }
  }

  lemma ScalarReady(c: Ctx, m: Machine, r: TargetResult)
    requires Answer(c, m, r) && !c.f.usesRetarea
    ensures Ready(c, m, r)
  {
    hide RetSize, Load, Low;
    CtxFacts(c);
    hide Callable;
  }

  /** From the target's call to the end of the iteration. */
  lemma RunFromCall(c: Ctx, m: Machine, list: nat, given: seq<Arg>, h: nat)
    requires AllBound(c, m, list, given) && KindsMatch(c.f, given) && c.Mark() <= m.heap <= |m.mem|
              && Local_(m, Handle) == h
    ensures Consistent(c.f)
    ensures var o := Run(c.f, CallTheTarget(c.f) + AfterDispatch(c.f) + (AcceptReturn(c.f) + [DROP_HANDLE, BrDone]),
                         0, m);
            if |m.script| < 2 || !TargetFits(c, m.mem, m.heap, m.script[0])
               || !AfterFits(c, m.script[0].mem, m.script[0].heap, m.script[1]) then o.Waiting?
            else
              var r := m.script[0].result;
              var told := m.trace + [Target(TargetArgs(c.f, given, c.orig))] + [After(h, Told(c.f, r))];
              match m.script[1].after
              case AfterError => o.Trap? && o.why == Unreached && o.m.trace == told + [Drop(h)]
              case Repeat(again) =>
                && o.ToRetry? && o.m.trace == told + [Drop(h)] && o.m.script == m.script[2..]
                     && o.m.mem == m.script[1].mem
                && Framed(c, o.m) && |again| == |c.f.params| && ArgsAt(o.m.mem, Local_(o.m, ArgsArea), again)
              case Accept(_, v) => exists m2: Machine ::
                  && m2.trace == told && m2.heap == m.script[1].heap && m2.mem == m.script[1].mem
                  && AcceptEnds(c, m2, r, v, h, o)
  {
    hide ResultAt, HostWrote, AfterAt, Step, Run, Callable, AllBound, Ready, AfterDispatch, AcceptReturn,
      CallTheTarget, TargetArgs, KindsMatch, Judged, Framed, AcceptEnds, ArgsAt, Told;
    var f := c.f;
    assert Consistent(f) by { BoundFramed(c, m, list, given); FramedFacts(c, m); }
    var tail := AcceptReturn(f) + [DROP_HANDLE, BrDone];
    RunSplit(f, CallTheTarget(f) + AfterDispatch(f), tail, 0, m);
    RunSplit(f, CallTheTarget(f), AfterDispatch(f), 0, m);
    RunCallTheTarget(c, m, list, given, h);
    var o1 := Run(f, CallTheTarget(f), 0, m);
    if o1.Next? {
      var r := m.script[0].result;
      RunAfterDispatch(c, o1.m, r, h);
      var o2 := Run(f, AfterDispatch(f), 0, o1.m);
      if o2.Next? {
        var action := m.script[1].after;
        RunAccept(c, o2.m, r, action.present, action.slot, h);
      }
    }
  }

  lemma FramedFacts(c: Ctx, m: Machine)
    requires Framed(c, m)
    ensures Consistent(c.f) && Emittable(c.f, c.s) && Callable(c)
  {
    CtxFacts(c);
    hide Consistent;
  }

  lemma Regroup<T>(b: seq<T>, s: seq<T>, u: seq<T>, c: seq<T>, a: seq<T>, r: seq<T>, t: seq<T>)
    ensures b + s + u + c + a + r + t == (b + s + u) + (c + a + (r + t))
  {
  }

  /** The abstract loop once `before` has proceeded and `after` has answered. */
  lemma LoopProceeds(f: InterceptedFunction, orig: seq<seq<nat>>, args: seq<Arg>, script: seq<Reply>, trace: seq<Event>)
    requires |f.paramFlats| == |f.paramDiscs| == |orig| == |args|
    requires |script| >= 4 && script[0].NewReply? && script[1].BeforeReply? && script[2].TargetReply?
              && script[3].AfterReply?
    requires script[1].before.Proceed? && |script[1].before.args| == |args| && KindsMatch(f, script[1].before.args)
    ensures var h, r := script[0].handle, script[2].result;
            var told := trace + [New(f.funcName, args, h), Before(h)]
              + [Target(TargetArgs(f, script[1].before.args, orig))] + [After(h, Told(f, r))];
            var abs := Loop(f, orig, args, script, trace);
            && (script[3].after.AfterError? ==> abs == Trapped(told + [Drop(h)]))
            && (script[3].after.Repeat? && |script[3].after.args| == |args| ==>
                  abs == Loop(f, orig, script[3].after.args, script[4..], told + [Drop(h)]))
            && (script[3].after.Accept? ==>
                  var v := script[3].after.slot;
                  abs == if f.resultDisc.None? then Done(Void, told + [Drop(h)])
                         else if Tag(v) != f.resultDisc.value then Trapped(told)
                         else if f.resultDisc.value == DISC_COMPLEX then Done(FromTarget(r), told + [Drop(h)])
                         else Done(Given(v), told + [Drop(h)]))
  {
    hide Told, TargetArgs, KindsMatch, Tag;
    var h, r := script[0].handle, script[2].result;
    var begun := trace + [New(f.funcName, args, h), Before(h)];
    var pair := [Target(TargetArgs(f, script[1].before.args, orig)), After(h, Told(f, r))];
    assert begun + pair == begun + [pair[0]] + [pair[1]];
  }

  lemma AcceptAgrees(c: Ctx, m2: Machine, r: TargetResult, v: Value, h: nat, told: seq<Event>, o: End)
    requires AcceptEnds(c, m2, r, v, h, o) && m2.trace == told
    ensures var abs := if c.f.resultDisc.None? then Done(Void, told + [Drop(h)])
                       else if Tag(v) != c.f.resultDisc.value then Trapped(told)
                       else if c.f.resultDisc.value == DISC_COMPLEX then Done(FromTarget(r), told + [Drop(h)])
                       else Done(Given(v), told + [Drop(h)]);
            Agrees(c, o, abs) && OutOfRoom(c, o, abs, m2.heap) && Untouched(o, abs, m2.mem)
  {
    hide Tag, Low, ToCore, Load, RetSize;
  }

  lemma SkipAgrees(c: Ctx, m: Machine, args: seq<Arg>, m1: Machine, o: End)
    requires |c.f.paramFlats| == |c.f.paramDiscs| == |c.orig| == |args|
    requires |m.script| >= 2 && m.script[0].NewReply? && m.script[1].BeforeReply? && m.script[1].before.Skip?
    requires m1.trace == m.trace + [New(c.f.funcName, args, m.script[0].handle), Before(m.script[0].handle)]
    requires Local_(m1, Handle) == m.script[0].handle
    requires SkipEnds(c, m1, m.script[1].before.slot, o)
    ensures Agrees(c, o, Loop(c.f, c.orig, args, m.script, m.trace))
    ensures OutOfRoom(c, o, Loop(c.f, c.orig, args, m.script, m.trace), m1.heap)
    ensures forall mem :: Untouched(o, Loop(c.f, c.orig, args, m.script, m.trace), mem)
  {
    hide Tag, Low, ToCore, Load, RetSize;
  }

  lemma RunIteration(c: Ctx, m: Machine, args: seq<Arg>)
    requires Framed(c, m) && |args| == |c.f.params| && ArgsAt(m.mem, Local_(m, ArgsArea), args)
    ensures Emittable(c.f, c.s) && |c.orig| == |c.f.params| && |c.f.paramFlats| == |c.f.paramDiscs| == |c.f.params|
    ensures IterationEnds(c, m, args, Run(c.f, LoopBody(c.f, c.s), 0, m))
  {
    hide Run, Callable, Begin, SkipReturn, Unwrap, CallTheTarget, AfterDispatch, AcceptReturn, Agrees, Answered,
      SkipEnds, ArgsAt, Framed, Emittable, Loop;
    FramedFacts(c, m);
    OrigLengths(c);
    Lengths(c.f);
    var f := c.f;
    var tail := CallTheTarget(f) + AfterDispatch(f) + (AcceptReturn(f) + [DROP_HANDLE, BrDone]);
    var first := Begin(f, c.s) + SkipReturn(f) + Unwrap(f, |f.params|);
    Regroup(Begin(f, c.s), SkipReturn(f), Unwrap(f, |f.params|), CallTheTarget(f), AfterDispatch(f), AcceptReturn(f),
            [DROP_HANDLE, BrDone]);
    assert LoopBody(f, c.s) == first + tail;
    RunSplit(f, first, tail, 0, m);
    RunSplit(f, Begin(f, c.s) + SkipReturn(f), Unwrap(f, |f.params|), 0, m);
    RunSplit(f, Begin(f, c.s), SkipReturn(f), 0, m);
    RunBegin(c, m, args);
    var o1 := Run(f, Begin(f, c.s), 0, m);
    if o1.Waiting? {
      AgreesWaiting(c, Loop(f, c.orig, args, m.script, m.trace));
    } else if m.script[1].before.BeforeError? {
      ErrorAgrees(c, m, args, o1);
    } else if m.script[1].before.Skip? {
      RunSkip(c, o1.m, m.script[1].before.present, m.script[1].before.slot, m.script[0].handle);
      AnsweredHandle(c, o1.m, m.script[1].before, m.script[0].handle);
      SkipAgrees(c, m, args, o1.m, Run(f, SkipReturn(f), 0, o1.m));
      SkipStops(c, o1.m, m.script[1].before.slot, Run(f, SkipReturn(f), 0, o1.m));
    } else {
      var given := m.script[1].before.args;
      RunNoSkip(c, o1.m, given, m.script[0].handle);
      RunProceed(c, m, args, o1.m, given);
    }
  }

  lemma AgreesWaiting(c: Ctx, abs: Outcome)
    ensures Agrees(c, Waiting, abs)
  {
  }

  lemma SkipStops(c: Ctx, m: Machine, v: Value, o: End)
    requires SkipEnds(c, m, v, o)
    ensures !o.Next? && !o.ToRetry? && !o.Waiting?
  {
    hide Returned, Low, Tight;
  }

  lemma AnsweredHandle(c: Ctx, m: Machine, action: BeforeAction, h: nat)
    requires Answered(c, m, action, h)
    ensures Local_(m, Handle) == h && Framed(c, m) && c.Mark() <= m.heap <= |m.mem|
    ensures action.Proceed? ==> Proceeding(c, m, W32(m.mem, c.BeforeAddr() + 8), action.args)
  {
    hide Callable, SlotAt, ArgAt, Load;
    if action.Proceed? {
      FramedFacts(c, m);
      CtxFacts(c);
    }
  }

  lemma ErrorAgrees(c: Ctx, m: Machine, args: seq<Arg>, o: End)
    requires |c.f.paramFlats| == |c.f.paramDiscs| == |c.orig| == |args|
    requires |m.script| >= 2 && m.script[0].NewReply? && m.script[1].BeforeReply? && m.script[1].before.BeforeError?
    requires o.Trap? && o.why == Unreached
    requires o.m.trace == m.trace + [New(c.f.funcName, args, m.script[0].handle), Before(m.script[0].handle)]
              + [Drop(m.script[0].handle)]
    ensures Agrees(c, o, Loop(c.f, c.orig, args, m.script, m.trace))
    ensures OutOfRoom(c, o, Loop(c.f, c.orig, args, m.script, m.trace), RoundHeap(c, m.script)) && !o.ToDone?
  {
  }

  /** Told to proceed: wrong kinds trap, otherwise the target is called and `after` decides. */
  lemma RunProceed(c: Ctx, m: Machine, args: seq<Arg>, m1: Machine, given: seq<Arg>)
    requires Consistent(c.f) && Callable(c)
              && |c.f.paramFlats| == |c.f.paramDiscs| == |c.f.params| == |c.orig| == |args|
    requires |m.script| >= 2 && m.script[0].NewReply? && m.script[1].BeforeReply?
              && m.script[1].before == Proceed(given)
    requires Answered(c, m1, Proceed(given), m.script[0].handle)
    requires m1.trace == m.trace + [New(c.f.funcName, args, m.script[0].handle), Before(m.script[0].handle)]
    requires m1.script == m.script[2..] && m1.mem == m.script[1].mem && m1.heap == m.script[1].heap
    requires BeforeFits(c, m.mem, c.Mark(), m.script[1])
    ensures var tail := CallTheTarget(c.f) + AfterDispatch(c.f) + (AcceptReturn(c.f) + [DROP_HANDLE, BrDone]);
            var u := Run(c.f, Unwrap(c.f, |c.f.params|), 0, m1);
            IterationEnds(c, m, args, if u.Next? then Run(c.f, tail, 0, u.m) else u)
  {
    hide Run, Callable, CallTheTarget, AfterDispatch, AcceptReturn, Agrees, Answered, AcceptEnds, ArgsAt, Framed,
      Unwrap, Consistent, Bound, AllBound, Loop;
    hide Told, TargetArgs, HostWrote, BeforeAt, ResultAt, AfterAt;
    var f, h := c.f, m.script[0].handle;
    AnsweredHandle(c, m1, Proceed(given), h);
    var list := W32(m1.mem, c.BeforeAddr() + 8);
    assert |given| == |args| by { ProceedingLength(c, m1, list, given); }
    RunUnwrap(c, m1, list, given, |given|);
    var u := Run(f, Unwrap(f, |f.params|), 0, m1);
    if !KindsMatch(f, given) {
      KindsTrap(c, m, args, given, u);
    } else {
      UnwrapBound(c, m1, u.m, list, given);
      RunFromCall(c, u.m, list, given, h);
      var tail := CallTheTarget(f) + AfterDispatch(f) + (AcceptReturn(f) + [DROP_HANDLE, BrDone]);
      var o := Run(f, tail, 0, u.m);
      assert CallsTarget(c, m.script[1]);
      assert RoundFits(c, m.mem, m.script) <==>
        |u.m.script| >= 2 && TargetFits(c, u.m.mem, u.m.heap, u.m.script[0])
          && AfterFits(c, u.m.script[0].mem, u.m.script[0].heap, u.m.script[1]);
      if !RoundFits(c, m.mem, m.script) {
        AgreesWaiting(c, Loop(f, c.orig, args, m.script, m.trace));
      } else {
        LoopProceeds(f, c.orig, args, m.script, m.trace);
        var r := m.script[2].result;
        var told := m1.trace + [Target(TargetArgs(f, given, c.orig))] + [After(h, Told(f, r))];
        match m.script[3].after {
          case AfterError => TrapAgrees(c, o, told + [Drop(h)]);
          case Repeat(again) =>
            assert o.m.script == m.script[4..];
          case Accept(_, v) =>
            var m2: Machine :|
              && m2.trace == told && m2.heap == m.script[3].heap && m2.mem == m.script[3].mem
              && AcceptEnds(c, m2, r, v, h, o);
            AcceptAgrees(c, m2, r, v, h, told, o);
            AcceptStops(c, m2, r, v, h, o);
        }
      }
    }
  }

  lemma TrapAgrees(c: Ctx, o: End, trace: seq<Event>)
    requires o.Trap? && o.why == Unreached && o.m.trace == trace
    ensures Agrees(c, o, Trapped(trace)) && forall heap :: OutOfRoom(c, o, Trapped(trace), heap)
  {
  }

  lemma AcceptStops(c: Ctx, m: Machine, r: TargetResult, v: Value, h: nat, o: End)
    requires AcceptEnds(c, m, r, v, h, o)
    ensures !o.Next? && !o.ToRetry? && !o.Waiting?
  {
    hide Returned, Low, Tight;
  }

  lemma ProceedingLength(c: Ctx, m: Machine, list: nat, given: seq<Arg>)
    requires Proceeding(c, m, list, given)
    ensures |given| == |c.f.params|
  {
  }

  lemma KindsTrap(c: Ctx, m: Machine, args: seq<Arg>, given: seq<Arg>, u: End)
    requires |c.f.paramFlats| == |c.f.paramDiscs| == |c.orig| == |args| == |given| && !KindsMatch(c.f, given)
    requires |m.script| >= 2 && m.script[0].NewReply? && m.script[1].BeforeReply?
              && m.script[1].before == Proceed(given)
    requires u.Trap? && u.why == Unreached
    requires u.m.trace == m.trace + [New(c.f.funcName, args, m.script[0].handle), Before(m.script[0].handle)]
    ensures Agrees(c, u, Loop(c.f, c.orig, args, m.script, m.trace))
    ensures OutOfRoom(c, u, Loop(c.f, c.orig, args, m.script, m.trace), RoundHeap(c, m.script)) && !u.ToDone?
  {
    hide Tag;
  }

  lemma UnwrapBound(c: Ctx, m1: Machine, m2: Machine, list: nat, given: seq<Arg>)
    requires Proceeding(c, m1, list, given) && Consistent(c.f) && SameButArgs(m1, m2) && |c.orig| == |given|
    requires forall i :: 0 <= i < |given| ==>
              |c.orig[i]| == |c.f.paramFlats[i]| && Bound(c.f, m2, list, given, c.orig, i)
    ensures AllBound(c, m2, list, given) && Local_(m2, Handle) == Local_(m1, Handle)
    ensures m2.mem == m1.mem && m2.heap == m1.heap && m2.script == m1.script
  {
    hide Callable, Bound, ArgAt, Load;
  }

  // ---- The theorem -------------------------------------------------------------------------------------

  /** The emitted loop refines the abstract loop, through any number of repeats. */
  lemma {:induction false} LoopRefines(c: Ctx, m: Machine, args: seq<Arg>)
    requires Framed(c, m) && |args| == |c.f.params| && ArgsAt(m.mem, Local_(m, ArgsArea), args)
    ensures Emittable(c.f, c.s) && |c.orig| == |c.f.params| && |c.f.paramFlats| == |c.f.paramDiscs| == |c.f.params|
    ensures Agrees(c, Step(c.f, LoopI(LoopBody(c.f, c.s)), m), Loop(c.f, c.orig, args, m.script, m.trace))
    ensures Step(c.f, LoopI(LoopBody(c.f, c.s)), m).Waiting? <==> !Feasible(c, m.mem, m.script)
    ensures Feasible(c, m.mem, m.script) ==>
              var o, abs := Step(c.f, LoopI(LoopBody(c.f, c.s)), m), Loop(c.f, c.orig, args, m.script, m.trace);
              && OutOfRoom(c, o, abs, RoundHeap(c, Last(c, m.script)))
              && Untouched(o, abs, RoundMem(c, Last(c, m.script)))
    decreases |m.script|
  {
    hide Step, Run, Callable, LoopBody, Loop, Agrees, ArgsAt, Framed, Emittable, RoundFits, CallsTarget;
    RunIteration(c, m, args);
    StepBlock(c.f, LoopBody(c.f, c.s), m);
    var o := Run(c.f, LoopBody(c.f, c.s), 0, m);
    if o.ToRetry? {
      var again: seq<Arg> :|
        && |again| == |args| && Framed(c, o.m) && ArgsAt(o.m.mem, Local_(o.m, ArgsArea), again)
        && Loop(c.f, c.orig, args, m.script, m.trace) == Loop(c.f, c.orig, again, o.m.script, o.m.trace);
      LoopRefines(c, o.m, again);
    }
  }

  /** How a whole call ends: the block turns the loop's exit into falling through. */
  ghost predicate CallAgrees(c: Ctx, o: End, abs: Outcome) {
    if o.Next? then Agrees(c, ToDone(o.m), abs) else !o.ToDone? && Agrees(c, o, abs)
  }

  /** The abstract loop, from the last round on. */
  lemma {:induction false} LastLoop(c: Ctx, mem: Mem, args: seq<Arg>, script: seq<Reply>, trace: seq<Event>)
    returns (start: Mem, again: seq<Arg>, told: seq<Event>)
    requires |c.f.paramFlats| == |c.f.paramDiscs| == |c.orig| == |args| == |c.f.params|
    requires Feasible(c, mem, script)
    ensures |again| == |args| && RoundFits(c, start, Last(c, script)) && !Repeats(c, Last(c, script))
    ensures Loop(c.f, c.orig, args, script, trace) == Loop(c.f, c.orig, again, Last(c, script), told)
    decreases |script|
  {
    start, again, told := mem, args, trace;
    if Repeats(c, script) {
      hide Told, TargetArgs, KindsMatch, HostWrote, ListAt, SlotAt, ResultAt, Loop;
      LoopProceeds(c.f, c.orig, args, script, trace);
      var h, given, r := script[0].handle, script[1].before.args, script[2].result;
      start, again, told := LastLoop(c, script[3].mem, script[3].after.args, script[4..],
                                     trace + [New(c.f.funcName, args, h), Before(h)]
                                       + [Target(TargetArgs(c.f, given, c.orig))] + [After(h, Told(c.f, r))]
                                       + [Drop(h)]);
    }
  }

  /** A call that returns the target's complex result leaves it where the caller finds it, if there is room for it. */
  ghost predicate Delivers(c: Ctx, o: End, abs: Outcome, script: seq<Reply>) {
    o.Next? && c.f.usesRetarea && abs.Done? && abs.ret.FromTarget? ==>
      && o.m.mem == RoundMem(c, Last(c, script))
      && (Roomy(c.f) && abs.ret.r.Whole? ==> Lift(o.m.mem, ResultLayout(c.f), Local_(o.m, Out)) == Some(abs.ret.r.v))
  }

  lemma ResultDelivered(c: Ctx, mem: Mem, args: seq<Arg>, o: End, script: seq<Reply>, trace: seq<Event>)
    requires Callable(c) && |c.f.paramFlats| == |c.f.paramDiscs| == |c.orig| == |args| == |c.f.params|
    requires Feasible(c, mem, script) && CallAgrees(c, o, Loop(c.f, c.orig, args, script, trace))
    requires o.Next? ==> Untouched(ToDone(o.m), Loop(c.f, c.orig, args, script, trace), RoundMem(c, Last(c, script)))
    ensures Delivers(c, o, Loop(c.f, c.orig, args, script, trace), script)
  {
    hide Callable, Feasible, Last, RoundFits, Lift, Low, Roomy, Loop;
    var abs := Loop(c.f, c.orig, args, script, trace);
    if o.Next? && c.f.usesRetarea && abs.Done? && abs.ret.FromTarget? && abs.ret.r.Whole? && Roomy(c.f) {
      var start, again, told := LastLoop(c, mem, args, script, trace);
      var last := Last(c, script);
      FromLast(c, start, again, last, told);
      RoundKeepsResult(c, start, last, abs.ret.r.v);
    }
  }

  /** A result handed through is the last round's. */
  lemma FromLast(c: Ctx, mem: Mem, args: seq<Arg>, script: seq<Reply>, trace: seq<Event>)
    requires |c.f.paramFlats| == |c.f.paramDiscs| == |c.orig| == |args| == |c.f.params|
    requires RoundFits(c, mem, script) && !Repeats(c, script)
    requires var abs := Loop(c.f, c.orig, args, script, trace); abs.Done? && abs.ret.FromTarget?
    ensures CallsTarget(c, script[1]) && |script| >= 4
            && script[2].result == Loop(c.f, c.orig, args, script, trace).ret.r && RoundMem(c, script) == script[3].mem
  {
    hide Told, TargetArgs, KindsMatch, HostWrote, ListAt, SlotAt, ResultAt, Tag;
  }

  /**
   * Compiler correctness. For every supported signature, every caller's arguments, and every sequence of host
   * replies, the emitted interceptor does what the protocol's loop does: it makes the same calls in the same
   * order on the same values, traps exactly where the loop traps, returns the loop's value, and leaves
   * everything below the entry heap as it was. A complex result in memory is what the last reply left in its area, and
   * that is the target's value if there is room for it. The call waits for a reply exactly when the sequence has none
   * the host could give at that point, and it runs out of memory exactly when a given text is to be returned and there
   * are no eight bytes left for it.
   */
  lemma InterceptorRefines(c: Ctx, script: seq<Reply>)
    requires Callable(c)
    ensures Emittable(c.f, c.s) && |c.orig| == |c.f.params| && |c.f.paramFlats| == |c.f.paramDiscs| == |c.f.params|
    ensures CallAgrees(c, Run(c.f, Body(c.f, c.s), 0, Start(c, script)),
                       Loop(c.f, c.orig, AllShown(c.f, c.orig, c.mem0), script, []))
    ensures Run(c.f, Body(c.f, c.s), 0, Start(c, script)).Waiting? <==>
              !Feasible(c, Marshalled(c, c.mem0, |c.f.params|), script)
    ensures Feasible(c, Marshalled(c, c.mem0, |c.f.params|), script) ==>
              var o, abs := Run(c.f, Body(c.f, c.s), 0, Start(c, script)),
                Loop(c.f, c.orig, AllShown(c.f, c.orig, c.mem0), script, []);
              OutOfRoom(c, o, abs, RoundHeap(c, Last(c, script))) && Delivers(c, o, abs, script)
  {
    hide Step, Run, LoopBody, Loop, Agrees, ArgsAt, OrigFits, StringsIn, Consistent, Allocate, Marshal, AreaEnd,
      AlignUp, AllShown, Feasible, Marshalled, Tight, Delivers, Last, RoundMem, RoundHeap, Size, Extent;
    CtxFacts(c);
    CtxOrig(c);
    OrigLengths(c);
    Lengths(c.f);
    var f, m := c.f, Start(c, script);
    var args := AllShown(f, c.orig, c.mem0);
    RunAllocate(c, m);
    var m1 := Allocated(c, m);
    var r := RunMarshal(c, m1, |f.params|);
    var m2 := m1.(mem := r);
    RunSplit(f, Allocate(f), Marshal(f, c.s, |f.params|), 0, m);
    var loop := Block([LoopI(LoopBody(f, c.s))]);
    RunThen(f, Allocate(f) + Marshal(f, c.s, |f.params|), loop, m);
    EntryRecords(c, m2);
    LoopRefines(c, m2, args);
    StepBlock(f, [LoopI(LoopBody(f, c.s))], m2);
    RunOne(f, LoopI(LoopBody(f, c.s)), m2);
    AgreesNotNext(c, Step(f, LoopI(LoopBody(f, c.s)), m2), Loop(f, c.orig, args, script, []));
    if Feasible(c, r, script) {
      ResultDelivered(c, r, args, Run(f, Body(f, c.s), 0, m), script, []);
    }
  }

  lemma CtxOrig(c: Ctx)
    requires Callable(c)
    ensures Consistent(c.f) && OrigFits(c.f, c.orig, c.mem0, |c.mem0|)
  {
    hide StringsIn, CoreFits, DiscFits;
  }

  lemma AgreesNotNext(c: Ctx, o: End, abs: Outcome)
    requires Agrees(c, o, abs)
    ensures !o.Next?
  {
  }

  lemma EntryRecords(c: Ctx, m: Machine)
    requires Callable(c) && Low(c, m.mem)
    requires forall i :: 0 <= i < |c.f.params| ==> RecordOk(c, m.mem, i)
    requires |c.f.params| > 0 ==> Local_(m, ArgsArea) == c.Base()
    requires |c.f.params| == 0 ==> Local_(m, ArgsArea) == 0
    ensures ArgsAt(m.mem, Local_(m, ArgsArea), AllShown(c.f, c.orig, c.mem0))
  {
    hide ArgAt, TextsBelow, Shown, StringsIn, OrigFits, Consistent;
    CtxFacts(c);
    CtxOrig(c);
    var args := AllShown(c.f, c.orig, c.mem0);
    forall i | 0 <= i < |args|
      ensures ArgAt(m.mem, c.Base() + 32 * i) == Some(args[i])
    {
      assert RecordOk(c, m.mem, i);
    }
  }
}
