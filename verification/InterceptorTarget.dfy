/** The middle of an iteration: take the advice's arguments apart and call the target with them. */
module InterceptorTarget {
  import opened Wrappers
  import opened Memory
  import opened CanonicalAbi
  import opened Layouts
  import opened Signature
  import opened Protocol
  import opened CoreWasm
  import opened Generator
  import opened InterceptorEntry
  import opened InterceptorSlots
  import opened InterceptorBefore

  // ---- Unwrapping the advice's arguments ----------------------------------------------------------

  /** The locals once argument `i`, whose record is at `a`, is taken apart. */
  function Bind(locals: map<Local, nat>, m: Mem, a: nat, i: nat, disc: nat, flats: seq<WT>, v: Value): map<Local, nat>
    requires a + 32 <= |m| && DiscFits(disc, flats)
  {
    if disc == DISC_COMPLEX then locals
    else if disc == DISC_STRING then locals[ArgPart(i, 0) := W32(m, a + 24)][ArgPart(i, 1) := W32(m, a + 28)]
    else locals[ArgVal(i) := ToCore(flats[0], v)]
  }

  lemma EvalArgBase(m: Machine, b: nat, list: nat, i: nat)
    requires Local_(m, BeforeRet) == b && b + 32 <= |m.mem| && W32(m.mem, b + 8) == list && list + 32 * i < T32
    ensures Eval(ArgBase(i), m) == Some(list + 32 * i)
  {
    hide Load;
    EvalLoad(I32Load, 8, Get(BeforeRet), b, m);
    assert Eval(Const32(i * 32), m) == Some(32 * i);
  }

  lemma RunUnwrapParam(f: InterceptedFunction, m: Machine, b: nat, list: nat, i: nat, disc: nat, flats: seq<WT>,
                       v: Value)
    requires Local_(m, BeforeRet) == b && b + 32 <= |m.mem| <= 65536 && W32(m.mem, b + 8) == list
    requires list + 32 * i + 32 <= |m.mem| && v == ValueAt(m.mem, list + 32 * i + 16) && DiscFits(disc, flats)
    ensures Run(f, UnwrapParam(i, disc, flats), 0, m) ==
            if Tag(v) != disc then Trap(Unreached, m)
            else Next(m.(locals := Bind(m.locals, m.mem, list + 32 * i, i, disc, flats, v)))
  {
    hide Step, Run, Load, UnwrapPayload, Bind, ValueAt, DiscFits;
    var a := list + 32 * i;
    EvalArgBase(m, b, list, i);
    var guard := If(Ne(LoadE(I32Load8U, 16, ArgBase(i)), Const32(disc)), [Unreachable]);
    RunFirst(f, guard, UnwrapPayload(i, disc, flats), m);
    TagRead(m.mem, a + 16, v);
    EvalLoad(I32Load8U, 16, ArgBase(i), a, m);
    DiscSmall(disc, flats);
    StepIf(f, guard.cond, guard.then_, if Tag(v) == disc then 0 else 1, m);
    if Tag(v) != disc {
      RunOne(f, Unreachable, m);
      StepJump(f, m);
    } else {
      RunUnwrapPayload(f, m, b, list, a, i, disc, flats, v);
    }
  }

  lemma DiscSmall(disc: nat, flats: seq<WT>)
    requires DiscFits(disc, flats)
    ensures disc <= 6
  {
  }

  lemma RunUnwrapPayload(f: InterceptedFunction, m: Machine, b: nat, list: nat, a: nat, i: nat, disc: nat,
                         flats: seq<WT>, v: Value)
    requires Local_(m, BeforeRet) == b && b + 32 <= |m.mem| <= 65536 && W32(m.mem, b + 8) == list && a == list + 32 * i
    requires a + 32 <= |m.mem| && HoldsValue(m.mem, a + 16, v) && DiscFits(disc, flats) && Tag(v) == disc
    ensures Run(f, UnwrapPayload(i, disc, flats), 0, m) ==
              Next(m.(locals := Bind(m.locals, m.mem, a, i, disc, flats, v)))
  {
    hide Step, Run, Load, HoldsValue;
    var code := UnwrapPayload(i, disc, flats);
    EvalArgBase(m, b, list, i);
    if disc == DISC_COMPLEX {
      RunNone(f, m);
    } else if disc == DISC_STRING {
      EvalLoad(I32Load, 24, ArgBase(i), a, m);
      StepSet(f, ArgPart(i, 0), code[0].e, W32(m.mem, a + 24), m);
      var m1 := m.(locals := m.locals[ArgPart(i, 0) := W32(m.mem, a + 24)]);
      EvalArgBase(m1, b, list, i);
      EvalLoad(I32Load, 28, ArgBase(i), a, m1);
      StepSet(f, ArgPart(i, 1), code[1].e, W32(m.mem, a + 28), m1);
      assert code == [code[0]] + [code[1]];
      RunFirst(f, code[0], [code[1]], m);
      RunOne(f, code[1], m1);
    } else {
      assert flats == [flats[0]];
      SlotBitsAre(m.mem, a + 16, disc, flats[0], v);
      EvalLoad(F32Load, 24, ArgBase(i), a, m);
      EvalLoad(F64Load, 24, ArgBase(i), a, m);
      EvalLoad(I64Load, 24, ArgBase(i), a, m);
      hide ToCore, Eval;
      StepSet(f, ArgVal(i), code[0].e, ToCore(flats[0], v), m);
      RunOne(f, code[0], m);
      assert code == [code[0]];
    }
  }

  /** The core values argument `i` is passed as. */
  function Passed(f: InterceptedFunction, m: Mem, list: nat, given: seq<Arg>, orig: seq<seq<nat>>,
                  i: nat): (r: seq<nat>)
    requires Consistent(f) && |given| == |orig| == |f.params| && i < |given| && list + 32 * |given| <= |m|
    requires |orig[i]| == |f.paramFlats[i]|
    ensures |r| == |f.paramFlats[i]|
  {
    if f.paramDiscs[i] == DISC_COMPLEX then orig[i]
    else if f.paramDiscs[i] == DISC_STRING then [W32(m, list + 32 * i + 24), W32(m, list + 32 * i + 28)]
    else [ToCore(f.paramFlats[i][0], given[i].value)]
  }

  /** The argument locals of parameter `i` hold what is to be passed. */
  predicate Bound(f: InterceptedFunction, m: Machine, list: nat, given: seq<Arg>, orig: seq<seq<nat>>, i: nat)
    requires Consistent(f) && |given| == |orig| == |f.params| && i < |given| && list + 32 * |given| <= |m.mem|
    requires |orig[i]| == |f.paramFlats[i]|
  {
    var p := Passed(f, m.mem, list, given, orig, i);
    && (f.paramDiscs[i] == DISC_STRING ==> Local_(m, ArgPart(i, 0)) == p[0] && Local_(m, ArgPart(i, 1)) == p[1])
    && (IsScalar(f.paramDiscs[i]) ==> Local_(m, ArgVal(i)) == p[0])
  }

  /** The loop's state with the advice's list `given` at `list`. */
  ghost predicate Proceeding(c: Ctx, m: Machine, list: nat, given: seq<Arg>) {
    && Framed(c, m)
    && |given| == |c.f.params|
    && c.BeforeAddr() + 32 <= |m.mem| <= 65536
    && W32(m.mem, c.BeforeAddr() + 8) == list
    && ArgsAt(m.mem, list, given)
  }

  ghost predicate SameButArgs(a: Machine, b: Machine) {
    && b == a.(locals := b.locals)
    && forall l: Local :: !l.ArgVal? && !l.ArgPart? ==> Local_(b, l) == Local_(a, l)
  }

  lemma OrigLengths(c: Ctx)
    requires Callable(c)
    ensures |c.orig| == |c.f.params| && forall i :: 0 <= i < |c.orig| ==> |c.orig[i]| == |c.f.paramFlats[i]|
  {
    hide StringsIn;
  }

  /** How the first `k` arguments come apart: a wrong kind traps at once. */
  ghost predicate UnwrapEnds(c: Ctx, m: Machine, list: nat, given: seq<Arg>, k: nat, o: End)
    requires Proceeding(c, m, list, given) && k <= |given|
  {
    if forall i :: 0 <= i < k ==> Tag(given[i].value) == c.f.paramDiscs[i] then
      && o.Next? && SameButArgs(m, o.m)
      && |c.orig| == |given| && (forall i :: 0 <= i < k ==>
                                 |c.orig[i]| == |c.f.paramFlats[i]| && Bound(c.f, o.m, list, given, c.orig, i))
    else o.Trap? && o.why == Unreached && o.m.trace == m.trace
  }

  lemma {:induction false} RunUnwrap(c: Ctx, m: Machine, list: nat, given: seq<Arg>, k: nat)
    requires Proceeding(c, m, list, given) && k <= |given|
    ensures UnwrapEnds(c, m, list, given, k, Run(c.f, Unwrap(c.f, k), 0, m))
  {
    hide Step, Run, Callable, ArgAt, UnwrapParam, Bind, Bound, Load;
    CtxFacts(c);
    OrigLengths(c);
    if k == 0 {
      RunNone(c.f, m);
    } else {
      var i, f := k - 1, c.f;
      RunUnwrap(c, m, list, given, i);
      var o := Run(f, Unwrap(f, i), 0, m);
      RunSplit(f, Unwrap(f, i), UnwrapParam(i, f.paramDiscs[i], f.paramFlats[i]), 0, m);
      if o.Next? {
        ArgValue(m.mem, list, given, i);
        RunUnwrapParam(f, o.m, c.BeforeAddr(), list, i, f.paramDiscs[i], f.paramFlats[i], given[i].value);
        if Tag(given[i].value) == f.paramDiscs[i] {
          BoundStep(c, m, o.m, list, given, i);
        }
      }
    }
  }

  lemma ArgValue(m: Mem, list: nat, given: seq<Arg>, i: nat)
    requires ArgsAt(m, list, given) && i < |given|
    ensures list + 32 * i + 32 <= |m| && given[i].value == ValueAt(m, list + 32 * i + 16)
  {
    hide ValueAt, Load;
    assert ArgAt(m, list + 32 * i) == Some(given[i]);
  }

  lemma BoundStep(c: Ctx, m: Machine, m1: Machine, list: nat, given: seq<Arg>, i: nat)
    requires Proceeding(c, m, list, given) && i < |given| && SameButArgs(m, m1)
    requires |c.orig| == |given| && forall j :: 0 <= j < i ==>
              |c.orig[j]| == |c.f.paramFlats[j]| && Bound(c.f, m1, list, given, c.orig, j)
    requires |c.orig[i]| == |c.f.paramFlats[i]| && DiscFits(c.f.paramDiscs[i], c.f.paramFlats[i])
    ensures list + 32 * i + 32 <= |m1.mem|
    ensures var m2 := m1.(locals :=
                          Bind(m1.locals, m1.mem, list + 32 * i, i, c.f.paramDiscs[i], c.f.paramFlats[i],
                               given[i].value));
            && SameButArgs(m, m2)
            && forall j :: 0 <= j <= i ==> |c.orig[j]| == |c.f.paramFlats[j]| && Bound(c.f, m2, list, given, c.orig, j)
  {
    hide Callable, ArgAt, Load, ToCore;
  }

  // ---- The target's arguments -----------------------------------------------------------------------

  lemma {:induction false} EvalAppend(a: seq<Expr>, b: seq<Expr>, m: Machine, x: seq<nat>, y: seq<nat>)
    requires EvalAll(a, m) == Some(x) && EvalAll(b, m) == Some(y)
    ensures EvalAll(a + b, m) == Some(x + y)
  {
    hide Eval;
    if b == [] {
      assert a + b == a && x + y == x;
    } else {
      var front := b[..|b| - 1];
      assert (a + b)[..|a + b| - 1] == a + front && (a + b)[|a + b| - 1] == b[|b| - 1];
      EvalAppend(a, front, m, x, EvalAll(front, m).value);
      assert x + y == x + EvalAll(front, m).value + [y[|y| - 1]];
    }
  }

  lemma EvalOne(e: Expr, m: Machine, v: nat)
    requires Eval(e, m) == Some(v)
    ensures EvalAll([e], m) == Some([v])
  {
    hide Eval;
    assert [e][..0] == [] && EvalAll([], m) == Some([]);
    assert [] + [v] == [v];
  }

  lemma {:induction false} EvalParams(core: nat, k: nat, m: Machine)
    requires core + k <= |m.params|
    ensures EvalAll(seq(k, (j: nat) => GetParam(core + j)), m) == Some(m.params[core..core + k])
  {
    var es := seq(k, (j: nat) => GetParam(core + j));
    if k > 0 {
      EvalParams(core, k - 1, m);
      assert es[..k - 1] == seq(k - 1, (j: nat) => GetParam(core + j));
      assert m.params[core..core + k] == m.params[core..core + k - 1] + [m.params[core + k - 1]];
    }
  }

  lemma EvalCallArg(c: Ctx, m: Machine, list: nat, given: seq<Arg>, i: nat)
    requires Callable(c) && Consistent(c.f) && |given| == |c.orig| == |c.f.params| && i < |given|
              && list + 32 * |given| <= |m.mem|
    requires |c.orig[i]| == |c.f.paramFlats[i]| && m.params == Concat(c.orig) && Bound(c.f, m, list, given, c.orig, i)
    ensures EvalAll(CallArg(i, c.f.paramDiscs[i], c.f.paramFlats[i], FlatStart(c.f.paramFlats, i)), m)
            == Some(Passed(c.f, m.mem, list, given, c.orig, i))
  {
    hide Callable, Load, ToCore, Concat, FlatStart;
    var disc, flats := c.f.paramDiscs[i], c.f.paramFlats[i];
    var es := CallArg(i, disc, flats, FlatStart(c.f.paramFlats, i));
    var p := Passed(c.f, m.mem, list, given, c.orig, i);
    if disc == DISC_COMPLEX {
      OrigSlice(c, i);
      EvalParams(FlatStart(c.f.paramFlats, i), |flats|, m);
    } else if disc == DISC_STRING {
      assert es == [Get(ArgPart(i, 0))] + [Get(ArgPart(i, 1))];
      EvalOne(Get(ArgPart(i, 0)), m, p[0]);
      EvalOne(Get(ArgPart(i, 1)), m, p[1]);
      EvalAppend([Get(ArgPart(i, 0))], [Get(ArgPart(i, 1))], m, [p[0]], [p[1]]);
      assert [p[0]] + [p[1]] == p;
    } else {
      EvalOne(Get(ArgVal(i)), m, p[0]);
      assert es == [Get(ArgVal(i))] && p == [p[0]];
    }
  }

  /** Every argument is bound: the state just before the target call. */
  ghost predicate AllBound(c: Ctx, m: Machine, list: nat, given: seq<Arg>) {
    && Proceeding(c, m, list, given)
    && Consistent(c.f) && |c.orig| == |given| == |c.f.params|
    && forall i :: 0 <= i < |given| ==> |c.orig[i]| == |c.f.paramFlats[i]| && Bound(c.f, m, list, given, c.orig, i)
  }

  ghost function Groups(c: Ctx, m: Machine, list: nat, given: seq<Arg>): (r: seq<seq<nat>>)
    requires AllBound(c, m, list, given)
  {
    seq(|given|, i requires 0 <= i < |given| => Passed(c.f, m.mem, list, given, c.orig, i))
  }

  lemma Lengths(f: InterceptedFunction)
    requires Consistent(f)
    ensures |f.paramFlats| == |f.paramDiscs| == |f.params|
  {
  }

  lemma {:induction false} EvalCallArgs(c: Ctx, m: Machine, list: nat, given: seq<Arg>, k: nat)
    requires AllBound(c, m, list, given) && k <= |given|
    ensures EvalAll(CallArgs(c.f, k), m) == Some(Concat(Groups(c, m, list, given)[..k]))
  {
    hide Callable, Passed, Bound, ArgAt, Eval, CallArg, Consistent;
    var groups := Groups(c, m, list, given);
    if k == 0 {
      assert groups[..0] == [];
    } else {
      EvalCallArgs(c, m, list, given, k - 1);
      Lengths(c.f);
      EvalCallArg(c, m, list, given, k - 1);
      FlatStartStep(groups, k - 1);
      EvalAppend(CallArgs(c.f, k - 1),
                 CallArg(k - 1, c.f.paramDiscs[k - 1], c.f.paramFlats[k - 1], FlatStart(c.f.paramFlats, k - 1)),
                 m, Concat(groups[..k - 1]), groups[k - 1]);
      CallArgsStep(c.f, k);
    }
  }

  lemma CallArgsStep(f: InterceptedFunction, k: nat)
    requires Consistent(f) && 0 < k <= |f.params|
    ensures CallArgs(f, k) == CallArgs(f, k - 1)
              + CallArg(k - 1, f.paramDiscs[k - 1], f.paramFlats[k - 1], FlatStart(f.paramFlats, k - 1))
  {
    hide CallArg;
  }

  /** What the target reads is what the protocol says it is given. */
  lemma ReceivedOne(c: Ctx, m: Machine, list: nat, given: seq<Arg>, i: nat)
    requires AllBound(c, m, list, given) && i < |given|
    requires Tag(given[i].value) == c.f.paramDiscs[i]
    ensures Received(c.f.paramDiscs[i], Passed(c.f, m.mem, list, given, c.orig, i), m.mem)
            == TargetArgOf(c.f.paramDiscs[i], c.f.paramFlats[i], given[i].value, c.orig[i])
  {
    hide Callable, Load, ToCore, Framed, Bound;
    ArgValue(m.mem, list, given, i);
    assert DiscFits(c.f.paramDiscs[i], c.f.paramFlats[i]);
  }

  lemma GroupSlice(c: Ctx, m: Machine, list: nat, given: seq<Arg>, vals: seq<nat>, i: nat)
    requires AllBound(c, m, list, given) && i < |given|
    requires Concat(Groups(c, m, list, given)) <= vals
    ensures var start := FlatStart(c.f.paramFlats, i);
            && start + |c.f.paramFlats[i]| <= |vals|
            && vals[start..start + |c.f.paramFlats[i]|] == Passed(c.f, m.mem, list, given, c.orig, i)
  {
    hide Callable, Passed, Bound, ArgAt, Proceeding;
    var groups := Groups(c, m, list, given);
    SameStarts(c.f.paramFlats, groups, i);
    ConcatSlice(groups, i, |groups|);
    assert groups[..|groups|] == groups;
    var start := FlatStart(groups, i);
    assert vals[start..start + |groups[i]|] == Concat(groups)[start..start + |groups[i]|];
  }

  lemma ReceivedAre(c: Ctx, m: Machine, list: nat, given: seq<Arg>, vals: seq<nat>)
    requires AllBound(c, m, list, given) && KindsMatch(c.f, given)
    requires Concat(Groups(c, m, list, given)) <= vals
    ensures Slices(c.f, vals) && ReceivedAll(c.f, vals, m.mem) == TargetArgs(c.f, given, c.orig)
  {
    hide Callable, Passed, Bound, ArgAt, Proceeding, Received, TargetArgOf, FlatStart;
    forall i | 0 <= i < |given|
      ensures FlatStart(c.f.paramFlats, i) + |c.f.paramFlats[i]| <= |vals|
      ensures Received(c.f.paramDiscs[i],
                       vals[FlatStart(c.f.paramFlats, i)..FlatStart(c.f.paramFlats, i) + |c.f.paramFlats[i]|], m.mem)
              == TargetArgOf(c.f.paramDiscs[i], c.f.paramFlats[i], given[i].value, c.orig[i])
    {
      GroupSlice(c, m, list, given, vals, i);
      ReceivedOne(c, m, list, given, i);
    }
  }

  lemma GroupsLength(c: Ctx, m: Machine, list: nat, given: seq<Arg>)
    requires AllBound(c, m, list, given)
    ensures |Concat(Groups(c, m, list, given))| == |Concat(c.f.paramFlats)|
  {
    hide Callable, Passed, Bound, ArgAt, Proceeding;
    var groups := Groups(c, m, list, given);
    SameStarts(c.f.paramFlats, groups, |groups|);
    assert groups[..|groups|] == groups && c.f.paramFlats[..|groups|] == c.f.paramFlats;
  }

  /** The core arguments of the call evaluate to the bound values and, for an indirect result, the return area. */
  lemma TargetVals(c: Ctx, m: Machine, list: nat, given: seq<Arg>) returns (vals: seq<nat>)
    requires AllBound(c, m, list, given) && KindsMatch(c.f, given)
    ensures EvalAll(CallArgs(c.f, |c.f.params|) + (if c.f.usesRetarea then [Get(TargetRet)] else []), m) == Some(vals)
    ensures |vals| == |c.f.coreParamsLower| && Slices(c.f, vals)
    ensures ReceivedAll(c.f, vals, m.mem) == TargetArgs(c.f, given, c.orig)
    ensures c.f.usesRetarea ==> |vals| > 0 && vals[|vals| - 1] == c.RetAddr()
  {
    hide Callable, Passed, Bound, ArgAt, Slices, ReceivedAll, TargetArgs, KindsMatch, CallArgs, EvalAll, ArgsAt;
    var groups := Groups(c, m, list, given);
    EvalCallArgs(c, m, list, given, |given|);
    assert groups[..|given|] == groups;
    GroupsLength(c, m, list, given);
    var core := Concat(groups);
    var args := CallArgs(c.f, |c.f.params|);
    if c.f.usesRetarea {
      vals := core + [c.RetAddr()];
      EvalOne(Get(TargetRet), m, c.RetAddr());
      EvalAppend(args, [Get(TargetRet)], m, core, [c.RetAddr()]);
    } else {
      vals := core;
      assert args + [] == args;
    }
    ReceivedAre(c, m, list, given, vals);
  }

  /** The target's answer is in hand: `r` sits in the return area or the result local. */
  ghost predicate Answer(c: Ctx, m: Machine, r: TargetResult) {
    && Framed(c, m)
    && c.Mark() <= m.heap <= |m.mem|
    && (c.f.usesRetarea ==> c.RetAddr() + RetSize(c.f.resultFlats) <= |m.mem|)
    && ResultFits(c.f, r)
    && (r.TextResult? ==> c.RetAddr() + 8 <= |m.mem| && RetSize(c.f.resultFlats) == 8
                          && TextAt(m.mem, W32(m.mem, c.RetAddr()), W32(m.mem, c.RetAddr() + 4)) == Some(r.text))
    && (r.Scalar? && c.f.resultDisc.Some? ==> Local_(m, ResultVal) == r.bits)
  }

  lemma StepTargetOk(c: Ctx, m: Machine, list: nat, given: seq<Arg>, call: Instr)
    requires AllBound(c, m, list, given) && KindsMatch(c.f, given) && c.Mark() <= m.heap <= |m.mem|
    requires call.CallTarget? && call.args == CallArgs(c.f, |c.f.params|)
              + (if c.f.usesRetarea then [Get(TargetRet)] else [])
    requires call.dst == if c.f.result.Some? && !c.f.usesRetarea then Some(ResultVal) else None
    ensures var o := Step(c.f, call, m);
            if m.script == [] || !TargetFits(c, m.mem, m.heap, m.script[0]) then o.Waiting?
            else
              && o.Next?
              && o.m == m.(locals := o.m.locals, mem := m.script[0].mem, heap := m.script[0].heap,
                           script := m.script[1..],
                           trace := m.trace + [Target(TargetArgs(c.f, given, c.orig))])
              && Local_(o.m, Handle) == Local_(m, Handle)
              && Answer(c, o.m, m.script[0].result)
  {
    hide Step, Run, Callable, Bound, ResultAt, Slices, ReceivedAll, TargetArgs, KindsMatch, CallArgs, EvalAll,
      ArgsAt, AllBound, RetSize;
    var vals := TargetVals(c, m, list, given);
    assert Framed(c, m) by { BoundFramed(c, m, list, given); }
    CtxFacts(c);
    StepHost(c.f, m);
    var o := Step(c.f, call, m);
    if !o.Waiting? {
      var r := m.script[0];
      var ret, size := if c.f.usesRetarea then c.RetAddr() else 0,
        if c.f.usesRetarea then Size(ResultLayout(c.f)) else 0;
      assert HostWrote(m.mem, m.heap, r.mem, r.heap, ret, size);
      if c.f.usesRetarea {
        LowKept(c, m.mem, m.heap, r.mem, r.heap, ret, size);
      } else {
        HostWroteNothing(m.mem, m.heap, r.mem, r.heap, c.RetAddr());
        LowKept(c, m.mem, m.heap, r.mem, r.heap, c.RetAddr(), 0);
      }
      ResultShape(c, m.mem, m.heap, r.mem, r.heap, ret, r.result);
    }
  }

  lemma ResultShape(c: Ctx, before: Mem, low: nat, m: Mem, heap: nat, ret: nat, r: TargetResult)
    requires Consistent(c.f) && ResultAt(c.f, before, low, m, heap, ret, r)
    ensures ResultFits(c.f, r) && (r.Scalar? ==> c.f.result.Some? && !c.f.usesRetarea)
    ensures r.TextResult? ==> c.f.usesRetarea && ret + 8 <= |m| && RetSize(c.f.resultFlats) == 8
                              && TextAt(m, W32(m, ret), W32(m, ret + 4)) == Some(r.text)
  {
    hide RetSize, Load, Lower, TextAt;
  }

  lemma BoundFramed(c: Ctx, m: Machine, list: nat, given: seq<Arg>)
    requires AllBound(c, m, list, given)
    ensures Framed(c, m)
  {
    hide Bound;
  }

  lemma HostWroteNothing(m: Mem, heap: nat, m': Mem, heap': nat, at: nat)
    requires HostWrote(m, heap, m', heap', 0, 0)
    ensures HostWrote(m, heap, m', heap', at, 0)
  {
  }
}
