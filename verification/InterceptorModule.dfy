/** The main module around the interceptors: string data, allocators, post-return, and whole sessions of calls. */
module InterceptorModule {
  import opened Wrappers
  import opened Memory
  import opened CanonicalAbi
  import opened Layouts
  import opened Signature
  import opened Protocol
  import opened CoreWasm
  import opened Generator
  import opened InterceptorArea
  import opened InterceptorEntry
  import opened InterceptorBefore
  import opened InterceptorTarget
  import opened InterceptorAfter
  import opened InterceptorSlots
  import opened InterceptorRefinement

  // ---- String data ------------------------------------------------------------------------------------

  predicate NamesIn(all: seq<Byte>, params: seq<Param>, entries: seq<ParamStrings>) {
    && |entries| == |params|
    && forall i :: 0 <= i < |params| ==>
         && StringIn(all, entries[i].nameOff, entries[i].nameLen, |all|, params[i].name)
         && StringIn(all, entries[i].typeOff, entries[i].typeLen, |all|, TypeName(params[i].ty))
  }

  lemma StringGrows(all: seq<Byte>, more: seq<Byte>, off: nat, len: nat, text: seq<Byte>)
    requires StringIn(all, off, len, |all|, text)
    ensures StringIn(all + more, off, len, |all + more|, text)
  {
    assert (all + more)[off..off + len] == all[off..off + len];
  }

  lemma NamesGrow(all: seq<Byte>, more: seq<Byte>, params: seq<Param>, entries: seq<ParamStrings>)
    requires NamesIn(all, params, entries)
    ensures NamesIn(all + more, params, entries)
  {
    hide StringIn, TypeName;
    forall i | 0 <= i < |params|
      ensures StringIn(all + more, entries[i].nameOff, entries[i].nameLen, |all + more|, params[i].name)
      ensures StringIn(all + more, entries[i].typeOff, entries[i].typeLen, |all + more|, TypeName(params[i].ty))
    {
      StringGrows(all, more, entries[i].nameOff, entries[i].nameLen, params[i].name);
      StringGrows(all, more, entries[i].typeOff, entries[i].typeLen, TypeName(params[i].ty));
    }
  }

  /** Appends one function's parameter and type names. */
  method LayOutParams(all: seq<Byte>, params: seq<Param>) returns (more: seq<Byte>, entries: seq<ParamStrings>)
    ensures NamesIn(all + more, params, entries)
  {
    more, entries := [], [];
    for i := 0 to |params|
      invariant NamesIn(all + more, params[..i], entries)
    {
      var name, typeName := params[i].name, TypeName(params[i].ty);
      ghost var before := all + more;
      var entry := ParamStrings(|all| + |more|, |name|, |all| + |more| + |name|, |typeName|);
      NamesGrow(before, name + typeName, params[..i], entries);
      more, entries := more + name + typeName, entries + [entry];
      assert all + more == before + (name + typeName);
      assert params[..i + 1] == params[..i] + [params[i]];
      assert (all + more)[entry.nameOff..entry.nameOff + entry.nameLen] == name;
      assert (all + more)[entry.typeOff..entry.typeOff + entry.typeLen] == typeName;
    }
    assert params[..|params|] == params;
  }

  /** Function names first, then every parameter's two names; the heap starts after them, 8-aligned. */
  method LayOutStrings(fs: seq<InterceptedFunction>) returns (all: seq<Byte>, strs: seq<Strings>, heapBase: nat)
    ensures |strs| == |fs| && forall k :: 0 <= k < |fs| ==> StringsIn(fs[k], strs[k], all, |all|)
    ensures heapBase == AlignUp(|all|, 8)
  {
    all := [];
    var fnames: seq<(nat, nat)> := [];
    for k := 0 to |fs|
      invariant |fnames| == k
      invariant forall i :: 0 <= i < k ==> StringIn(all, fnames[i].0, fnames[i].1, |all|, fs[i].funcName)
    {
      forall i | 0 <= i < k
        ensures StringIn(all + fs[k].funcName, fnames[i].0, fnames[i].1, |all + fs[k].funcName|, fs[i].funcName)
      {
        StringGrows(all, fs[k].funcName, fnames[i].0, fnames[i].1, fs[i].funcName);
      }
      fnames := fnames + [(|all|, |fs[k].funcName|)];
      all := all + fs[k].funcName;
    }
    strs := [];
    for k := 0 to |fs|
      invariant |strs| == k
      invariant forall i :: 0 <= i < |fs| ==> StringIn(all, fnames[i].0, fnames[i].1, |all|, fs[i].funcName)
      invariant forall i :: 0 <= i < k ==> strs[i].fnameOff == fnames[i].0 && strs[i].fnameLen == fnames[i].1
      invariant forall i :: 0 <= i < k ==> NamesIn(all, fs[i].params, strs[i].params)
    {
      var more, entries := LayOutParams(all, fs[k].params);
      forall i | 0 <= i < |fs|
        ensures StringIn(all + more, fnames[i].0, fnames[i].1, |all + more|, fs[i].funcName)
      {
        StringGrows(all, more, fnames[i].0, fnames[i].1, fs[i].funcName);
      }
      forall i | 0 <= i < k
        ensures NamesIn(all + more, fs[i].params, strs[i].params)
      {
        NamesGrow(all, more, fs[i].params, strs[i].params);
      }
      strs := strs + [Strings(fnames[k].0, fnames[k].1, entries)];
      all := all + more;
    }
    heapBase := AlignUp(|all|, 8);
  }

  // ---- Allocation by the host, and post-return ------------------------------------------------------------

  /** `cabi_realloc`: always a fresh block; the old one is never looked at. */
  function Realloc(heap: nat, align: nat, len: nat): (r: (nat, nat))
    requires Alignment(align) && heap + align + len < T32
    ensures r.0 % align == 0 && heap <= r.0 && r.1 == r.0 + len
  {
    var ptr := AlignUp(heap, align) % T32;
    (ptr, (ptr + len) % T32)
  }

  /** Between calls: the heap is at its 8-aligned base and the string data is in place. */
  predicate AtRest(data: seq<Byte>, base: nat, mem: Mem, heap: nat) {
    heap == base == AlignUp(|data|, 8) && base <= |mem| <= 65536 && mem[..|data|] == data
  }

  /** The host lowers a call's arguments into blocks it takes from the base upwards. */
  predicate HostLowered(base: nat, before: Mem, after: Mem, heap: nat) {
    |after| == |before| && base <= heap <= |before| && before[..base] == after[..base]
  }

  /** A function of the module called on arguments of its own signature, with room for its work areas and result. */
  predicate Prepared(fs: seq<InterceptedFunction>, strs: seq<Strings>, base: nat, before: Mem, c: Ctx) {
    && |strs| == |fs|
    && (exists k :: 0 <= k < |fs| && c.f == fs[k] && c.s == strs[k])
    && Consistent(c.f)
    && HostLowered(base, before, c.mem0, c.heap0)
    && OrigFits(c.f, c.orig, c.mem0, c.heap0)
    && HasRoom(c)
  }

  /** The body of every post-return function. */
  function PostReturn(base: nat): seq<Instr> {
    [SetHeap(Const32(base))]
  }

  lemma PostReturnResets(f: InterceptedFunction, base: nat, m: Machine)
    requires base < T32
    ensures Run(f, PostReturn(base), 0, m) == Next(m.(heap := base))
  {
    hide Step;
    StepSetHeap(f, Const32(base), base, m);
    RunOne(f, SetHeap(Const32(base)), m);
  }

  /** A completed call: it fell through, and its caller, done with the result, ran post-return. */
  ghost predicate Completed(c: Ctx, base: nat, script: seq<Reply>, after: Mem, heap: nat)
    requires Callable(c)
  {
    CtxFacts(c);
    var o := Run(c.f, Body(c.f, c.s), 0, Start(c, script));
    o.Next? && Run(c.f, PostReturn(base), 0, o.m) == Next(o.m.(mem := after, heap := heap))
  }

  lemma StringsKept(f: InterceptedFunction, s: Strings, data: seq<Byte>, m: Mem, limit: nat)
    requires StringsIn(f, s, data, |data|) && |data| <= limit <= |m| && m[..|data|] == data
    ensures StringsIn(f, s, m, limit)
  {
    hide TypeName;
    forall off: nat, len: nat, text: seq<Byte> | StringIn(data, off, len, |data|, text)
      ensures StringIn(m, off, len, limit, text)
    {
      SliceOf(m, |data|, off, off + len);
    }
  }

  lemma SliceOf(m: Mem, k: nat, i: nat, j: nat)
    requires i <= j <= k <= |m|
    ensures m[..k][i..j] == m[i..j]
  {
  }

  lemma PreparedCallable(fs: seq<InterceptedFunction>, strs: seq<Strings>, data: seq<Byte>, base: nat, before: Mem,
                         heap: nat, c: Ctx)
    requires |strs| == |fs| && forall k :: 0 <= k < |fs| ==> StringsIn(fs[k], strs[k], data, |data|)
    requires AtRest(data, base, before, heap) && Prepared(fs, strs, heap, before, c)
    ensures Callable(c)
  {
    hide StringsIn, OrigFits, Consistent;
    assert c.mem0[..|data|] == c.mem0[..base][..|data|] == before[..base][..|data|] == data;
    StringsKept(c.f, c.s, data, c.mem0, c.heap0);
  }

  /** One call, and the post-return after it, leave the module as they found it. */
  lemma CallKeepsRest(fs: seq<InterceptedFunction>, strs: seq<Strings>, data: seq<Byte>, base: nat, before: Mem,
                      heap0: nat,
                      c: Ctx, script: seq<Reply>, after: Mem, heap: nat)
    requires |strs| == |fs| && forall k :: 0 <= k < |fs| ==> StringsIn(fs[k], strs[k], data, |data|)
    requires AtRest(data, base, before, heap0) && Prepared(fs, strs, heap0, before, c)
    requires Callable(c) && Completed(c, base, script, after, heap)
    ensures AtRest(data, base, after, heap)
  {
    hide StringsIn, OrigFits, Consistent, Loop, Run, Body, Returned, Feasible, Marshalled;
    CtxFacts(c);
    InterceptorRefines(c, script);
    PostReturnResets(c.f, base, Run(c.f, Body(c.f, c.s), 0, Start(c, script)).m);
    assert Low(c, after);
    assert after[..|data|] == after[..c.heap0][..|data|] == c.mem0[..c.heap0][..|data|] == c.mem0[..base][..|data|];
    assert before[..base][..|data|] == data;
  }

  /** Every completed call in any session starts and ends at rest. */
  lemma {:induction false} SessionAtRest(fs: seq<InterceptedFunction>, strs: seq<Strings>, data: seq<Byte>, base: nat,
                                         states: seq<(Mem, nat)>, calls: seq<Ctx>, scripts: seq<seq<Reply>>, n: nat)
    requires |strs| == |fs| && forall k :: 0 <= k < |fs| ==> StringsIn(fs[k], strs[k], data, |data|)
    requires |states| == |calls| + 1 && |scripts| == |calls| && n <= |calls|
    requires AtRest(data, base, states[0].0, states[0].1)
    requires forall i :: 0 <= i < |calls| ==> Prepared(fs, strs, states[i].1, states[i].0, calls[i])
    requires forall i :: 0 <= i < |calls| && Callable(calls[i]) ==>
               Completed(calls[i], base, scripts[i], states[i + 1].0, states[i + 1].1)
    ensures AtRest(data, base, states[n].0, states[n].1)
    ensures forall i :: 0 <= i < n ==> Callable(calls[i])
  {
    hide StringsIn, Prepared, Callable, Completed, AtRest;
    if n > 0 {
      var i := n - 1;
      SessionAtRest(fs, strs, data, base, states, calls, scripts, i);
      PreparedCallable(fs, strs, data, base, states[i].0, states[i].1, calls[i]);
      CallKeepsRest(fs, strs, data, base, states[i].0, states[i].1, calls[i], scripts[i], states[n].0, states[n].1);
    }
  }

  // ---- Where the code and its documentation part ---------------------------------------------------------

  /** The whole call's run. */
  ghost function CallRun(c: Ctx, script: seq<Reply>): End
    requires Callable(c)
  {
    CtxFacts(c);
    Run(c.f, Body(c.f, c.s), 0, Start(c, script))
  }

  ghost predicate Answerable(c: Ctx, script: seq<Reply>) {
    Callable(c) && Feasible(c, Marshalled(c, c.mem0, |c.f.params|), script)
  }

  /** The returned value is what lies at the value whose tag is at `a`: its two words, or its bits. */
  predicate ReturnsSlot(c: Ctx, m: Mem, a: nat, t: Machine)
    requires a + 16 <= |m| && c.f.resultDisc.Some?
  {
    var out := Local_(t, Out);
    if c.f.usesRetarea then out + 8 <= |t.mem| && W32(t.mem, out) == W32(m, a + 8)
        && W32(t.mem, out + 4) == W32(m, a + 12)
    else |c.f.resultFlats| == 1 && out == SlotBits(m, a, c.f.resultDisc.value, c.f.resultFlats[0])
  }

  /**
   * The tag byte decides: another kind traps, the declared one returns whatever lies there, if there is room for a
   * text.
   */
  ghost predicate TagDecides(c: Ctx, m: Mem, heap: nat, a: nat, o: End)
    requires a + 16 <= |m| && c.f.resultDisc.Some?
  {
    if m[a] != c.f.resultDisc.value then o.Trap? && o.why == Unreached
    else if Tight(c, heap) then o.Trap? && o.why == OutOfBounds
    else o.Next? && ReturnsSlot(c, m, a, o.m)
  }

  /** What the loop returns from a slot without a value is what lies there. */
  lemma AbsentReturned(c: Ctx, m: Mem, heap: nat, a: nat, v: Value, t: Machine)
    requires Consistent(c.f) && a + 24 <= |m| && SlotAt(m, heap, a, false, v) && c.f.resultDisc == Some(Tag(v))
              && Tag(v) != DISC_COMPLEX
    requires Returned(c, t, Given(v))
    ensures ReturnsSlot(c, m, a + 8, t)
  {
    hide Load;
    if !c.f.usesRetarea {
      SlotHolds(m, heap, a, false, v);
      ScalarResult(c.f);
      SlotBitsAre(m, a + 8, Tag(v), c.f.resultFlats[0], v);
    }
  }

  lemma ScalarResult(f: InterceptedFunction)
    requires Consistent(f) && f.resultDisc.Some? && f.resultDisc.value != DISC_COMPLEX && !f.usesRetarea
    ensures |f.resultFlats| == 1 && IsScalar(f.resultDisc.value) && DiscFits(f.resultDisc.value, [f.resultFlats[0]])
  {
    assert f.resultFlats == [f.resultFlats[0]];
  }

  /** The call's loop, from its last round on. */
  lemma LastRound(c: Ctx, script: seq<Reply>) returns (start: Mem, again: seq<Arg>, told: seq<Event>)
    requires Answerable(c, script)
    ensures |c.f.paramFlats| == |c.f.paramDiscs| == |c.orig| == |c.f.params| == |again| && Consistent(c.f)
            && OrigFits(c.f, c.orig, c.mem0, |c.mem0|)
    ensures RoundFits(c, start, Last(c, script)) && !Repeats(c, Last(c, script))
    ensures Loop(c.f, c.orig, AllShown(c.f, c.orig, c.mem0), script, []) ==
              Loop(c.f, c.orig, again, Last(c, script), told)
  {
    hide OrigFits, StringsIn, Feasible, Last, RoundFits, Loop, AllShown;
    CtxOrig(c);
    OrigLengths(c);
    Lengths(c.f);
    start, again, told := LastLoop(c, Marshalled(c, c.mem0, |c.f.params|), AllShown(c.f, c.orig, c.mem0), script, []);
  }

  /**
   * A value the advice did not give is read anyway: skipping without a value, in whatever round, returns the slot's old
   * bytes exactly when their tag happens to be the declared one.
   */
  lemma AbsentSkip(c: Ctx, script: seq<Reply>, v: Value)
    requires Answerable(c, script)
    requires var last := Last(c, script); |last| >= 2 && last[1].BeforeReply? && last[1].before == Skip(false, v)
    requires c.f.resultDisc.Some? && c.f.resultDisc.value != DISC_COMPLEX
    ensures var last := Last(c, script);
            && c.BeforeAddr() + 32 <= |last[1].mem|
            && TagDecides(c, last[1].mem, last[1].heap, c.BeforeAddr() + 16, CallRun(c, script))
  {
    hide Run, Returned, Tight, Low, Body, Load, OrigFits, StringsIn, HostWrote, Marshalled, Last, Feasible, Lift;
    CtxFacts(c);
    var start, again, told := LastRound(c, script);
    InterceptorRefines(c, script);
    var last := Last(c, script);
    var m, a, o := last[1].mem, c.BeforeAddr() + 8, CallRun(c, script);
    assert SlotAt(m, last[1].heap, a, false, v) && Tag(v) == m[a + 8];
    assert RoundHeap(c, last) == last[1].heap;
    if o.Next? {
      AbsentReturned(c, m, last[1].heap, a, v, o.m);
    }
  }

  /** The replies of a call whose last round ends with the target's call and an accepting answer. */
  ghost predicate AcceptedAtLast(c: Ctx, script: seq<Reply>) {
    && Answerable(c, script) && |Last(c, script)| >= 4 && CallsTarget(c, Last(c, script)[1])
    && Last(c, script)[3].AfterReply? && Last(c, script)[3].after.Accept?
  }

  /** The loop of a call that is accepted in the end. */
  lemma AcceptedLoop(c: Ctx, script: seq<Reply>) returns (start: Mem, again: seq<Arg>, told: seq<Event>)
    requires AcceptedAtLast(c, script)
    ensures |c.f.paramFlats| == |c.f.paramDiscs| == |c.orig| == |c.f.params| == |again| && Consistent(c.f)
            && OrigFits(c.f, c.orig, c.mem0, |c.mem0|)
    ensures var last := Last(c, script);
            && RoundFits(c, start, last) && !Repeats(c, last)
            && last[2].TargetReply? && AfterFits(c, last[2].mem, last[2].heap, last[3])
    ensures var last := Last(c, script);
            var h, r, v := last[0].handle, last[2].result, last[3].after.slot;
            var done := told + [New(c.f.funcName, again, h), Before(h)]
              + [Target(TargetArgs(c.f, last[1].before.args, c.orig))] + [After(h, Told(c.f, r))];
            Loop(c.f, c.orig, AllShown(c.f, c.orig, c.mem0), script, []) ==
              if c.f.resultDisc.None? then Done(Void, done + [Drop(h)])
              else if Tag(v) != c.f.resultDisc.value then Trapped(done)
              else if c.f.resultDisc.value == DISC_COMPLEX then Done(FromTarget(r), done + [Drop(h)])
              else Done(Given(v), done + [Drop(h)])
    ensures Last(c, script) == script ==> told == [] && again == AllShown(c.f, c.orig, c.mem0)
  {
    hide OrigFits, StringsIn, HostWrote, Marshalled, Told, TargetArgs, KindsMatch, Tag, BeforeAt, AfterAt, ResultAt,
      AllShown, Loop, Last, Feasible;
    start, again, told := LastRound(c, script);
    if Last(c, script) == script {
      again, told := AllShown(c.f, c.orig, c.mem0), [];
    }
    LoopProceeds(c.f, c.orig, again, Last(c, script), told);
  }

  /** A call without a result that is accepted in its first round runs to its end. */
  lemma AcceptedVoid(c: Ctx, script: seq<Reply>)
    requires AcceptedAtLast(c, script) && Last(c, script) == script && c.f.resultDisc.None?
    ensures |c.f.paramFlats| == |c.f.paramDiscs| == |c.orig| == |c.f.params| && Consistent(c.f)
              && OrigFits(c.f, c.orig, c.mem0, |c.mem0|)
    ensures var o, h, args, given := CallRun(c, script), script[0].handle, AllShown(c.f, c.orig, c.mem0),
              script[1].before.args;
            && o.Next?
            && o.m.trace == [New(c.f.funcName, args, h), Before(h), Target(TargetArgs(c.f, given, c.orig)),
                             After(h, None), Drop(h)]
  {
    hide Run, Returned, Low, Body, Load, OrigFits, StringsIn, HostWrote, Marshalled, Loop, TargetArgs, KindsMatch,
      AllShown, Last, Feasible, Lift;
    CtxFacts(c);
    var start, again, told := AcceptedLoop(c, script);
    InterceptorRefines(c, script);
    assert Told(c.f, script[2].result) == None;
  }

  /** The same on accepting without a value. */
  lemma AbsentAccept(c: Ctx, script: seq<Reply>, v: Value)
    requires AcceptedAtLast(c, script) && Last(c, script)[3].after == Accept(false, v)
    requires c.f.resultDisc.Some? && c.f.resultDisc.value != DISC_COMPLEX
    ensures var last := Last(c, script);
            && c.AfterAddr() + 32 <= |last[3].mem|
            && TagDecides(c, last[3].mem, last[3].heap, c.AfterAddr() + 16, CallRun(c, script))
  {
    hide Run, Returned, Tight, Low, Body, Load, OrigFits, StringsIn, HostWrote, Marshalled, Loop, Told, TargetArgs,
      KindsMatch, AllShown, Last, Feasible, Lift;
    CtxFacts(c);
    var start, again, told := AcceptedLoop(c, script);
    InterceptorRefines(c, script);
    var last := Last(c, script);
    var m, a, o := last[3].mem, c.AfterAddr() + 8, CallRun(c, script);
    assert SlotAt(m, last[3].heap, a, false, v) && Tag(v) == m[a + 8];
    if o.Next? {
      AbsentReturned(c, m, last[3].heap, a, v, o.m);
    }
  }

  /**
   * The tag byte of the advice's value decides what becomes of a complex result in `last`: the value handed through, or
   * a trap. In memory, what is handed through is what the last reply left in its area, and the target's value if there
   * is room for it.
   */
  ghost predicate TagHandsThrough(c: Ctx, last: seq<Reply>, o: End) {
    && |last| >= 4 && last[2].TargetReply? && last[3].AfterReply? && c.AfterAddr() + 32 <= |last[3].mem|
    && var r := last[2].result;
    if last[3].mem[c.AfterAddr() + 16] != DISC_COMPLEX then o.Trap? && o.why == Unreached
    else
      && o.Next? && Returned(c, o.m, FromTarget(r))
      && (c.f.usesRetarea ==>
            && o.m.mem == last[3].mem && r.Whole?
            && (Roomy(c.f) ==> Lift(o.m.mem, ResultLayout(c.f), Local_(o.m, Out)) == Some(r.v)))
  }

  /** Accepting a complex result, in whatever round, returns it exactly when the advice's value is itself complex. */
  lemma ComplexAccept(c: Ctx, script: seq<Reply>)
    requires AcceptedAtLast(c, script) && c.f.resultDisc == Some(DISC_COMPLEX)
    ensures TagHandsThrough(c, Last(c, script), CallRun(c, script))
  {
    hide CallRun, OrigFits, StringsIn, Loop, Told, TargetArgs, KindsMatch, AllShown, Last, Feasible, Marshalled, Lift,
      Roomy, Returned, Tag, RoundFits, AfterFits, Consistent;
    var start, again, told := AcceptedLoop(c, script);
    var last, o := Last(c, script), CallRun(c, script);
    AcceptTag(c, last[2].mem, last[2].heap, last[3]);
    ComplexEnds(c, script, o);
    if o.Next? && c.f.usesRetarea {
      WholeReturned(c, o.m, last[2].result);
    }
  }

  /** How a call with a complex result ends that is handed through or refused. */
  lemma ComplexEnds(c: Ctx, script: seq<Reply>, o: End)
    requires Answerable(c, script) && o == CallRun(c, script) && Consistent(c.f)
    requires OrigFits(c.f, c.orig, c.mem0, |c.mem0|) && |c.f.paramFlats| == |c.f.paramDiscs| == |c.orig| == |c.f.params|
    requires var abs := Loop(c.f, c.orig, AllShown(c.f, c.orig, c.mem0), script, []);
             abs.Trapped? || (abs.Done? && abs.ret.FromTarget?)
    ensures var abs := Loop(c.f, c.orig, AllShown(c.f, c.orig, c.mem0), script, []);
            if abs.Trapped? then o.Trap? && o.why == Unreached
            else o.Next? && Returned(c, o.m, abs.ret) && Delivers(c, o, abs, script)
  {
    hide Run, Body, OrigFits, StringsIn, Loop, AllShown, Last, Feasible, Marshalled, Lift, Roomy, Returned, Consistent,
      Low, Tight, Delivers;
    InterceptorRefines(c, script);
  }

  /** The tag byte of an accepting answer is the tag of its value. */
  lemma AcceptTag(c: Ctx, mem: Mem, heap: nat, reply: Reply)
    requires AfterFits(c, mem, heap, reply) && reply.after.Accept?
    ensures c.AfterAddr() + 32 <= |reply.mem| && Tag(reply.after.slot) == reply.mem[c.AfterAddr() + 16]
  {
    hide Load, HostWrote, Tag, SlotAt;
    SlotHolds(reply.mem, reply.heap, c.AfterAddr() + 8, reply.after.present, reply.after.slot);
    TagRead(reply.mem, c.AfterAddr() + 16, reply.after.slot);
  }

  lemma WholeReturned(c: Ctx, t: Machine, r: TargetResult)
    requires Returned(c, t, FromTarget(r)) && c.f.usesRetarea
    ensures r.Whole? && Local_(t, Out) == c.RetAddr()
  {
  }

  /** The host stores a boolean as one byte and leaves the other seven. */
  predicate StoredBoolean(m: Mem, a: nat, b: bool) {
    a + 16 <= |m| && m[a] == DISC_BOOL && m[a + 8] == (if b then 1 else 0)
  }

  /**
   * The emitted code reads the whole word back. The target's reading of it (any nonzero i32 is true) agrees with the
   * advice exactly when the boolean is true or the three bytes after it were zero.
   */
  lemma BooleanReadBack(m: Mem, a: nat, b: bool)
    requires StoredBoolean(m, a, b)
    ensures (Load(m, a + 8, 8) % T32 != 0) == b <==> b || (m[a + 9] == 0 && m[a + 10] == 0 && m[a + 11] == 0)
  {
    Load64(m, a + 8);
    WordBound(m, a + 8);
    FourBytes(m[a + 8], m[a + 9], m[a + 10], m[a + 11]);
    assert m[a + 8..a + 12] == [m[a + 8], m[a + 9], m[a + 10], m[a + 11]];
    hide FromLE;
    assert Load(m, a + 8, 8) % T32 == W32(m, a + 8);
  }

  lemma FourBytes(w: Byte, x: Byte, y: Byte, z: Byte)
    ensures FromLE([w, x, y, z]) == w + 256 * x + 65536 * y + 16777216 * z
  {
    assert [w, x, y, z][1..] == [x, y, z] && [x, y, z][1..] == [y, z] && [y, z][1..] == [z] && [z][1..] == [];
    assert FromLE([z]) == z;
    assert FromLE([y, z]) == y + 256 * z;
    assert FromLE([x, y, z]) == x + 256 * FromLE([y, z]);
  }

  /** What a scalar's slot holds reaches the target as its low word. */
  lemma BooleanPassed(m: Mem, a: nat)
    requires a + 16 <= |m| && m[a] == DISC_BOOL
    ensures ToCore(I32, ValueAt(m, a)) == W32(m, a + 8)
  {
    hide Load;
    WordBound(m, a + 8);
  }

  /** The last time the target is called, it is called with `args`. */
  ghost predicate LastCall(trace: seq<Event>, args: seq<TargetArg>) {
    exists k :: 0 <= k < |trace| && trace[k] == Target(args) && forall j :: k < j < |trace| ==> !trace[j].Target?
  }

  /** The flat the target gets for a boolean argument of the advice: the whole word it lies in. */
  lemma BooleanArg(c: Ctx, m: Mem, given: seq<Arg>, list: nat, i: nat)
    requires Consistent(c.f) && |c.orig| == |c.f.params| == |given| && i < |given| && c.f.paramDiscs[i] == DISC_BOOL
    requires ArgsAt(m, list, given) && m[list + 32 * i + 16] == DISC_BOOL
    ensures |TargetArgs(c.f, given, c.orig)| == |given|
    ensures TargetArgs(c.f, given, c.orig)[i] == CoreArg([W32(m, list + 32 * i + 24)])
  {
    hide Load, ArgAt, TextAt;
    ArgValue(m, list, given, i);
    BooleanPassed(m, list + 32 * i + 16);
    BooleanFlat(c.f, i);
  }

  /**
   * A boolean argument of the advice reaches the target as the whole word it lies in: in the run itself, in whatever
   * round, the target is called with a flat that reads as the boolean exactly when that is true or the three bytes
   * after it were zero.
   */
  lemma BooleanReaches(c: Ctx, script: seq<Reply>, i: nat, b: bool)
    requires Answerable(c, script) && |Last(c, script)| >= 2 && CallsTarget(c, Last(c, script)[1])
    requires i < |c.f.params| && |c.f.paramDiscs| == |c.f.params| && c.f.paramDiscs[i] == DISC_BOOL
    requires var m := Last(c, script)[1].mem;
             c.BeforeAddr() + 32 <= |m| && StoredBoolean(m, W32(m, c.BeforeAddr() + 8) + 32 * i + 16, b)
    ensures var o, m := CallRun(c, script), Last(c, script)[1].mem;
            var a := W32(m, c.BeforeAddr() + 8) + 32 * i + 24;
            && !o.Waiting?
            && (exists args: seq<TargetArg> ::
                  LastCall(o.m.trace, args) && i < |args| && args[i] == CoreArg([W32(m, a)]))
            && ((W32(m, a) != 0) == b <==> b || (m[a + 1] == 0 && m[a + 2] == 0 && m[a + 3] == 0))
  {
    hide CallRun, Load, HostWrote, Marshalled, KindsMatch, AllShown, ArgAt, Last, Feasible, TargetArgs, Told, Loop,
      OrigFits, StringsIn, Traced;
    CtxFacts(c);
    var start, again, told := LastRound(c, script);
    CallTraced(c, script);
    var last, o := Last(c, script), CallRun(c, script);
    var m, given := last[1].mem, last[1].before.args;
    var list := W32(m, c.BeforeAddr() + 8);
    assert ArgsAt(m, list, given);
    BooleanArg(c, m, given, list, i);
    BooleanReadBack(m, list + 32 * i + 16, b);
    BooleanWord(m, list + 32 * i + 16);
    CalledLast(c, again, last, told, o);
  }

  /** How much of the abstract trace a run has left: all of it, or all but the drop that ends a call. */
  ghost predicate Traced(o: End, abs: Outcome) {
    && !o.Waiting?
    && (abs.Done? || abs.Trapped? ==>
          o.m.trace == abs.trace || (abs.Done? && exists h :: abs.trace == o.m.trace + [Drop(h)]))
  }

  lemma CallTraced(c: Ctx, script: seq<Reply>)
    requires Answerable(c, script)
    ensures Consistent(c.f) && OrigFits(c.f, c.orig, c.mem0, |c.mem0|)
    ensures |c.f.paramFlats| == |c.f.paramDiscs| == |c.orig| == |c.f.params|
    ensures Traced(CallRun(c, script), Loop(c.f, c.orig, AllShown(c.f, c.orig, c.mem0), script, []))
  {
    hide Run, Body, Low, OrigFits, StringsIn, Marshalled, AllShown, Last, Feasible, Loop, Returned, Lift, Tight;
    CtxFacts(c);
    CtxOrig(c);
    InterceptorRefines(c, script);
  }

  /** After the last round's call no other follows. */
  lemma CalledLast(c: Ctx, args: seq<Arg>, script: seq<Reply>, trace: seq<Event>, o: End)
    requires |c.f.paramFlats| == |c.f.paramDiscs| == |c.orig| == |c.f.params| == |args|
    requires |script| >= 4 && script[0].NewReply? && script[2].TargetReply? && script[3].AfterReply?
    requires CallsTarget(c, script[1]) && !Repeats(c, script) && Traced(o, Loop(c.f, c.orig, args, script, trace))
    ensures !o.Waiting? && LastCall(o.m.trace, TargetArgs(c.f, script[1].before.args, c.orig))
  {
    hide TargetArgs, Told, KindsMatch, Tag, Loop;
    LoopProceeds(c.f, c.orig, args, script, trace);
    var abs := Loop(c.f, c.orig, args, script, trace);
    var begun := trace + [New(c.f.funcName, args, script[0].handle), Before(script[0].handle)];
    var h, call := script[0].handle, TargetArgs(c.f, script[1].before.args, c.orig);
    var after := After(h, Told(c.f, script[2].result));
    var told := begun + [Target(call)] + [after];
    if h' :| abs.Done? && abs.trace == o.m.trace + [Drop(h')] && o.m.trace != abs.trace {
      assert o.m.trace == abs.trace[..|abs.trace| - 1] && told == (told + [Drop(h)])[..|told|];
    }
    CallIsLast(begun, call, after, h, o.m.trace);
  }

  lemma CallIsLast(begun: seq<Event>, args: seq<TargetArg>, after: Event, h: nat, trace: seq<Event>)
    requires after.After?
    requires var told := begun + [Target(args)] + [after]; trace == told || trace == told + [Drop(h)]
    ensures LastCall(trace, args)
  {
    assert trace[|begun|] == Target(args);
  }

  lemma BooleanFlat(f: InterceptedFunction, i: nat)
    requires Consistent(f) && i < |f.params| && f.paramDiscs[i] == DISC_BOOL
    ensures f.paramFlats[i] == [I32]
  {
  }

  lemma BooleanWord(m: Mem, a: nat)
    requires a + 16 <= |m|
    ensures Load(m, a + 8, 8) % T32 == W32(m, a + 8)
  {
    Load64(m, a + 8);
    WordBound(m, a + 8);
    hide Load;
  }
}
