/** Entering an interceptor: work areas are laid out and the caller's arguments become records. */
module InterceptorEntry {
  import opened Wrappers
  import opened Memory
  import opened CanonicalAbi
  import opened Layouts
  import opened Signature
  import opened Protocol
  import opened CoreWasm
  import opened Generator

  /** One call: what is intercepted, on which flats, and the memory and heap it starts from. */
  datatype Ctx = Ctx(f: InterceptedFunction, s: Strings, orig: seq<seq<nat>>, mem0: Mem, heap0: nat) {
    function Base(): nat { AlignUp(heap0, 8) }
    function BeforeAddr(): nat { Base() + 32 * |f.params| }
    function AfterAddr(): nat { BeforeAddr() + 32 }
    function RetAddr(): nat { AfterAddr() + 32 }
    /** The watermark: everything above it is reclaimed at each repeat. */
    function Mark(): nat { RetAddr() + (if f.usesRetarea then RetSize(f.resultFlats) else 0) }
  }

  predicate StringIn(m: Mem, off: nat, len: nat, limit: nat, text: seq<Byte>) {
    off + len <= limit <= |m| && m[off..off + len] == text
  }

  /** The string data holds this function's names, below the heap. */
  predicate StringsIn(f: InterceptedFunction, s: Strings, m: Mem, limit: nat) {
    && |s.params| == |f.params|
    && StringIn(m, s.fnameOff, s.fnameLen, limit, f.funcName)
    && forall i :: 0 <= i < |f.params| ==>
         && StringIn(m, s.params[i].nameOff, s.params[i].nameLen, limit, f.params[i].name)
         && StringIn(m, s.params[i].typeOff, s.params[i].typeLen, limit, TypeName(f.params[i].ty))
  }

  /** Room for the work areas, and for what the target's result takes by the canonical ABI. */
  predicate HasRoom(c: Ctx) {
    && c.Mark() <= |c.mem0|
    && (c.f.usesRetarea ==> c.RetAddr() + Size(ResultLayout(c.f)) <= |c.mem0|)
  }

  /** A call the host may make: one page of memory, texts lowered below the heap, and room for everything. */
  predicate Callable(c: Ctx) {
    && Consistent(c.f)
    && |c.mem0| <= 65536
    && OrigFits(c.f, c.orig, c.mem0, c.heap0)
    && StringsIn(c.f, c.s, c.mem0, c.heap0)
    && HasRoom(c)
  }

  /** The activation at its first instruction. */
  function Start(c: Ctx, script: seq<Reply>): Machine {
    Machine(Concat(c.orig), map[], c.mem0, c.heap0, script, [])
  }

  predicate Low(c: Ctx, m: Mem) {
    |m| == |c.mem0| && c.heap0 <= |m| && m[..c.heap0] == c.mem0[..c.heap0]
  }

  /** What stays true from the work areas' allocation to the end: areas apart, low memory untouched. */
  predicate Framed(c: Ctx, m: Machine) {
    && Callable(c)
    && m.params == Concat(c.orig)
    && Low(c, m.mem)
    && Local_(m, BeforeRet) == c.BeforeAddr()
    && Local_(m, AfterRet) == c.AfterAddr()
    && Local_(m, Watermark) == c.Mark()
    && (c.f.usesRetarea ==> Local_(m, TargetRet) == c.RetAddr())
  }

  // ---- Replies the host can give ------------------------------------------------------------------

  /** A reply of `before`, written from memory `mem` and heap `heap`. */
  ghost predicate BeforeFits(c: Ctx, mem: Mem, heap: nat, reply: Reply) {
    && reply.BeforeReply? && c.BeforeAddr() + 32 <= |reply.mem|
    && HostWrote(mem, heap, reply.mem, reply.heap, c.BeforeAddr(), 32)
    && BeforeAt(reply.mem, heap, reply.heap, c.BeforeAddr(), |c.f.params|, reply.before)
  }

  /** A reply of the target. */
  ghost predicate TargetFits(c: Ctx, mem: Mem, heap: nat, reply: Reply) {
    var ret := if c.f.usesRetarea then c.RetAddr() else 0;
    && reply.TargetReply?
    && HostWrote(mem, heap, reply.mem, reply.heap, ret, if c.f.usesRetarea then Size(ResultLayout(c.f)) else 0)
    && ResultAt(c.f, mem, heap, reply.mem, reply.heap, ret, reply.result)
  }

  /** A reply of `after`. */
  ghost predicate AfterFits(c: Ctx, mem: Mem, heap: nat, reply: Reply) {
    && reply.AfterReply? && c.AfterAddr() + 32 <= |reply.mem|
    && HostWrote(mem, heap, reply.mem, reply.heap, c.AfterAddr(), 32)
    && AfterAt(reply.mem, heap, reply.heap, c.AfterAddr(), |c.f.params|, reply.after)
  }

  /** The advice proceeds with arguments of the declared kinds, so that the target is called. */
  predicate CallsTarget(c: Ctx, reply: Reply) {
    && reply.BeforeReply? && reply.before.Proceed? && |c.f.paramDiscs| == |reply.before.args|
    && KindsMatch(c.f, reply.before.args)
  }

  /** The replies of one round, each as the memory left by the one before it allows. */
  ghost predicate RoundFits(c: Ctx, mem: Mem, script: seq<Reply>) {
    && |script| >= 2 && script[0].NewReply? && BeforeFits(c, mem, c.Mark(), script[1])
    && (CallsTarget(c, script[1]) ==>
          |script| >= 4 && TargetFits(c, script[1].mem, script[1].heap, script[2])
            && AfterFits(c, script[2].mem, script[2].heap, script[3]))
  }

  predicate Repeats(c: Ctx, script: seq<Reply>) {
    |script| >= 4 && CallsTarget(c, script[1]) && script[3].AfterReply? && script[3].after.Repeat?
  }

  /** The heap the last reply of a round leaves. */
  function RoundHeap(c: Ctx, script: seq<Reply>): nat {
    if |script| < 2 || !script[1].BeforeReply? then 0
    else if |script| >= 4 && CallsTarget(c, script[1]) && script[3].AfterReply? then script[3].heap
    else script[1].heap
  }

  /** The memory the last reply of a round leaves. */
  function RoundMem(c: Ctx, script: seq<Reply>): Mem {
    if |script| < 2 || !script[1].BeforeReply? then []
    else if |script| >= 4 && CallsTarget(c, script[1]) && script[3].AfterReply? then script[3].mem
    else script[1].mem
  }

  /** The replies of the last round, after any number of repeats. */
  function Last(c: Ctx, script: seq<Reply>): seq<Reply>
    decreases |script|
  {
    if Repeats(c, script) then Last(c, script[4..]) else script
  }

  /** The replies of a whole call; each repeat starts again from the watermark. */
  ghost predicate Feasible(c: Ctx, mem: Mem, script: seq<Reply>)
    decreases |script|
  {
    RoundFits(c, mem, script) && (Repeats(c, script) ==> Feasible(c, script[3].mem, script[4..]))
  }

  /** The activation once its work areas are allocated. */
  function Allocated(c: Ctx, m: Machine): Machine {
    var l0 := if |c.f.params| > 0 then m.locals[ArgsArea := c.Base()] else m.locals;
    var l1 := l0[BeforeRet := c.BeforeAddr()][AfterRet := c.AfterAddr()];
    var l2 := if c.f.usesRetarea then l1[TargetRet := c.RetAddr()] else l1;
    m.(locals := l2[Watermark := c.Mark()], heap := c.Mark())
  }

  /** The allocator puts the work areas side by side, 8-aligned, above everything the caller lowered. */
  lemma RunAllocate(c: Ctx, m: Machine)
    requires c.Mark() <= 65536 && m.heap == c.heap0
    ensures Run(c.f, Allocate(c.f), 0, m) == Next(Allocated(c, m))
  {
    hide Step, Run, AlignUp, RetSize;
    var f, n := c.f, |c.f.params|;
    var head := if n > 0 then [SetAlloc(ArgsArea, n * 32)] else [];
    var m1 := if n > 0 then m.(locals := m.locals[ArgsArea := c.Base()], heap := c.BeforeAddr()) else m;
    if n > 0 {
      StepAlloc(f, ArgsArea, n * 32, m);
      RunOne(f, head[0], m);
    } else {
      RunNone(f, m);
    }
    AlreadyAligned(m1.heap);
    var m2 := m1.(locals := m1.locals[BeforeRet := c.BeforeAddr()], heap := c.AfterAddr());
    StepAlloc(f, BeforeRet, 32, m1);
    RunThen(f, head, SetAlloc(BeforeRet, 32), m);
    var m3 := m2.(locals := m2.locals[AfterRet := c.AfterAddr()], heap := c.RetAddr());
    StepAlloc(f, AfterRet, 32, m2);
    RunThen(f, head + [SetAlloc(BeforeRet, 32)], SetAlloc(AfterRet, 32), m);
    var code := head + [SetAlloc(BeforeRet, 32), SetAlloc(AfterRet, 32)];
    assert code == head + [SetAlloc(BeforeRet, 32)] + [SetAlloc(AfterRet, 32)];
    RunAllocateTail(c, code, m, m3);
  }

  lemma AlreadyAligned(x: nat)
    ensures AlignUp(AlignUp(x, 8), 8) == AlignUp(x, 8)
    ensures x % 8 == 0 ==> AlignUp(x, 8) == x
  {
  }

  lemma RunAllocateTail(c: Ctx, code: seq<Instr>, m: Machine, m3: Machine)
    requires c.Mark() <= 65536 && m3.heap == c.RetAddr() && Run(c.f, code, 0, m) == Next(m3)
    ensures var l := if c.f.usesRetarea then m3.locals[TargetRet := c.RetAddr()] else m3.locals;
            Run(c.f, code + (if c.f.usesRetarea then [SetAlloc(TargetRet, RetSize(c.f.resultFlats))] else [])
                + [Set(Watermark, Heap)], 0, m)
            == Next(m3.(locals := l[Watermark := c.Mark()], heap := c.Mark()))
  {
    hide Step, Run, RetSize;
    var f := c.f;
    if f.usesRetarea {
      var m4 := m3.(locals := m3.locals[TargetRet := c.RetAddr()], heap := c.Mark());
      AlreadyAligned(c.RetAddr());
      StepAlloc(f, TargetRet, RetSize(f.resultFlats), m3);
      RunThen(f, code, SetAlloc(TargetRet, RetSize(f.resultFlats)), m);
      StepSet(f, Watermark, Heap, m4.heap, m4);
      RunThen(f, code + [SetAlloc(TargetRet, RetSize(f.resultFlats))], Set(Watermark, Heap), m);
    } else {
      assert code + [] == code;
      StepSet(f, Watermark, Heap, m3.heap, m3);
      RunThen(f, code, Set(Watermark, Heap), m);
    }
  }

  // ---- Argument records ---------------------------------------------------------------------------

  lemma StoreKeeps(m: Mem, a: nat, n: nat, v: nat)
    requires a + n <= |m|
    ensures forall b: nat, k: nat :: b + k <= |m| && (b + k <= a || a + n <= b) ==>
              Load(Store(m, a, n, v), b, k) == Load(m, b, k)
    ensures forall i :: 0 <= i < |m| && !(a <= i < a + n) ==> Store(m, a, n, v)[i] == m[i]
  {
    forall b: nat, k: nat | b + k <= |m| && (b + k <= a || a + n <= b)
      ensures Load(Store(m, a, n, v), b, k) == Load(m, b, k)
    {
      LoadAgrees(Store(m, a, n, v), m, b, k);
    }
  }

  /** The header of a record: two strings and a tag. */
  function HeaderMem(m: Mem, a: nat, s: ParamStrings, disc: Byte): (r: Mem)
    requires a + 32 <= |m|
    ensures |r| == |m|
  {
    Store(Store(Store(Store(Store(m, a, 4, s.nameOff), a + 4, 4, s.nameLen), a + 8, 4, s.typeOff), a + 12, 4,
                s.typeLen), a + 16, 1, disc)
  }

  lemma HeaderReads(m: Mem, a: nat, s: ParamStrings, disc: Byte)
    requires a + 32 <= |m|
    requires s.nameOff < T32 && s.nameLen < T32 && s.typeOff < T32 && s.typeLen < T32
    ensures var r := HeaderMem(m, a, s, disc);
            && Load(r, a, 4) == s.nameOff && Load(r, a + 4, 4) == s.nameLen
            && Load(r, a + 8, 4) == s.typeOff && Load(r, a + 12, 4) == s.typeLen
            && r[a + 16] == disc
            && forall i :: 0 <= i < |m| && !(a <= i < a + 17) ==> r[i] == m[i]
  {
    Powers();
    hide Load, Pow256;
    var m1 := Store(m, a, 4, s.nameOff);
    var m2 := Store(m1, a + 4, 4, s.nameLen);
    var m3 := Store(m2, a + 8, 4, s.typeOff);
    var m4 := Store(m3, a + 12, 4, s.typeLen);
    LoadStored(m, a, 4, s.nameOff);
    LoadStored(m1, a + 4, 4, s.nameLen);
    LoadStored(m2, a + 8, 4, s.typeOff);
    LoadStored(m3, a + 12, 4, s.typeLen);
    assert Store(m4, a + 16, 1, disc)[a + 16] == ToLE(disc, 1)[0];
    hide Store;
    StoreKeeps(m, a, 4, s.nameOff);
    StoreKeeps(m1, a + 4, 4, s.nameLen);
    StoreKeeps(m2, a + 8, 4, s.typeOff);
    StoreKeeps(m3, a + 12, 4, s.typeLen);
    StoreKeeps(m4, a + 16, 1, disc);
  }

  /** A store to field `off` of the record at `a`. */
  lemma StoreField(f: InterceptedFunction, m: Machine, op: StoreOp, off: nat, offset: nat, e: Expr, v: nat, a: nat)
    requires Local_(m, ArgsArea) + offset == a && a + 32 <= |m.mem| <= 65536 && off + op.Width() <= 32
    requires Eval(e, m) == Some(v) && v < op.Limit()
    ensures Step(f, StoreI(op, off, Field(offset), e), m) == Next(m.(mem := Store(m.mem, a + off, op.Width(), v)))
  {
    hide Step, Store;
    assert Eval(Const32(offset), m) == Some(offset);
    assert Eval(Field(offset), m) == Some(a);
    StepStore(f, op, off, Field(offset), a, e, v, m);
  }

  lemma RunHeader(f: InterceptedFunction, s: ParamStrings, disc: Byte, offset: nat, m: Machine, a: nat)
    requires Local_(m, ArgsArea) + offset == a && a + 32 <= |m.mem| <= 65536
    requires s.nameOff < T32 && s.nameLen < T32 && s.typeOff < T32 && s.typeLen < T32
    ensures Run(f, MarshalHeader(s, disc, offset), 0, m) == Next(m.(mem := HeaderMem(m.mem, a, s, disc)))
  {
    hide Step, Store;
    var code := MarshalHeader(s, disc, offset);
    StoreField(f, m, I32Store, 0, offset, Const32(s.nameOff), s.nameOff, a);
    var m1 := m.(mem := Store(m.mem, a, 4, s.nameOff));
    StoreField(f, m1, I32Store, 4, offset, Const32(s.nameLen), s.nameLen, a);
    var m2 := m1.(mem := Store(m1.mem, a + 4, 4, s.nameLen));
    StoreField(f, m2, I32Store, 8, offset, Const32(s.typeOff), s.typeOff, a);
    var m3 := m2.(mem := Store(m2.mem, a + 8, 4, s.typeOff));
    StoreField(f, m3, I32Store, 12, offset, Const32(s.typeLen), s.typeLen, a);
    var m4 := m3.(mem := Store(m3.mem, a + 12, 4, s.typeLen));
    StoreField(f, m4, I32Store8, 16, offset, Const32(disc), disc, a);
    var m5 := m4.(mem := Store(m4.mem, a + 16, 1, disc));
    assert Run(f, code, 5, m5) == Next(m5);
    assert Run(f, code, 4, m4) == Next(m5);
    assert Run(f, code, 3, m3) == Next(m5);
    assert Run(f, code, 2, m2) == Next(m5);
    assert Run(f, code, 1, m1) == Next(m5);
  }

  /** The payload word or words of a record. */
  function PayloadMem(m: Mem, a: nat, disc: nat, flats: seq<WT>, orig: seq<nat>): (r: Mem)
    requires a + 32 <= |m| && DiscFits(disc, flats) && |orig| == |flats|
    ensures |r| == |m|
  {
    if disc == DISC_COMPLEX then Store(Store(m, a + 24, 4, 0), a + 28, 4, 0)
    else if disc == DISC_STRING then Store(Store(m, a + 24, 4, orig[0]), a + 28, 4, orig[1])
    else if disc == DISC_SIGNED then Store(m, a + 24, 8, if flats[0].I32? then SignExtend(orig[0]) else orig[0])
    else if disc == DISC_F32 then Store(m, a + 24, 4, orig[0])
    else Store(m, a + 24, 8, orig[0])
  }

  predicate FlatsFit(disc: nat, flats: seq<WT>, orig: seq<nat>) {
    && DiscFits(disc, flats) && |orig| == |flats|
    && forall j :: 0 <= j < |orig| ==> CoreFits(disc, flats[j], orig[j])
  }

  lemma RunPayload(f: InterceptedFunction, m: Machine, a: nat, disc: nat, flats: seq<WT>, orig: seq<nat>,
                   offset: nat, core: nat)
    requires Local_(m, ArgsArea) + offset == a && a + 32 <= |m.mem| <= 65536
    requires FlatsFit(disc, flats, orig)
    requires core + |flats| <= |m.params| && m.params[core..core + |flats|] == orig
    ensures Run(f, MarshalPayload(disc, flats, offset, core), 0, m) ==
              Next(m.(mem := PayloadMem(m.mem, a, disc, flats, orig)))
  {
    hide Step, Store;
    var code := MarshalPayload(disc, flats, offset, core);
    var ops := PayloadOps(disc, flats, core);
    if disc == DISC_COMPLEX || disc == DISC_STRING {
      var v0, v1 := if disc == DISC_STRING then orig[0] else 0, if disc == DISC_STRING then orig[1] else 0;
      StoreField(f, m, I32Store, 24, offset, ops.0, v0, a);
      var m1 := m.(mem := Store(m.mem, a + 24, 4, v0));
      StoreField(f, m1, I32Store, 28, offset, ops.1, v1, a);
      var m2 := m1.(mem := Store(m1.mem, a + 28, 4, v1));
      assert Run(f, code, 2, m2) == Next(m2);
      assert Run(f, code, 1, m1) == Next(m2);
    } else {
      var op := code[0].op;
      var v := if disc == DISC_SIGNED && flats[0].I32? then SignExtend(orig[0]) else orig[0];
      assert orig[0] == m.params[core];
      StoreField(f, m, op, 24, offset, code[0].e, v, a);
      var m1 := m.(mem := Store(m.mem, a + 24, op.Width(), v));
      assert Run(f, code, 1, m1) == Next(m1);
    }
  }

  function PayloadOps(disc: nat, flats: seq<WT>, core: nat): (Expr, Expr) {
    if disc == DISC_STRING then (GetParam(core), GetParam(core + 1)) else (Const32(0), Const32(0))
  }

  lemma TextKept(m: Mem, m': Mem, ptr: nat, len: nat, limit: nat)
    requires |m| == |m'| && limit <= |m| && m[..limit] == m'[..limit] && ptr + len <= limit
    ensures TextAt(m, ptr, len) == TextAt(m', ptr, len) == Some(m[ptr..ptr + len])
  {
    assert m[..limit][ptr..ptr + len] == m[ptr..ptr + len];
    assert m'[..limit][ptr..ptr + len] == m'[ptr..ptr + len];
  }

  /** A stored payload reads back as the value it marshals; the rest of memory is kept. */
  lemma PayloadReads(m: Mem, a: nat, disc: nat, flats: seq<WT>, orig: seq<nat>, limit: nat)
    requires limit <= a && a + 32 <= |m| && m[a + 16] == disc
    requires FlatsFit(disc, flats, orig)
    requires disc == DISC_STRING ==> orig[0] + orig[1] <= limit
    ensures var r := PayloadMem(m, a, disc, flats, orig);
            && ValueAt(r, a + 16) == Shown(Param([], Bool), disc, flats, orig, m).value
            && (forall i :: 0 <= i < |m| && !(a + 24 <= i < a + 32) ==> r[i] == m[i])
            && forall b: nat :: b + 4 <= a + 24 ==> Load(r, b, 4) == Load(m, b, 4)
  {
    Powers();
    hide Load, Pow256, Store;
    var r := PayloadMem(m, a, disc, flats, orig);
    if disc == DISC_COMPLEX || disc == DISC_STRING {
      var v0, v1 := if disc == DISC_STRING then orig[0] else 0, if disc == DISC_STRING then orig[1] else 0;
      var m1 := Store(m, a + 24, 4, v0);
      LoadStored(m, a + 24, 4, v0);
      LoadStored(m1, a + 28, 4, v1);
      StoreKeeps(m, a + 24, 4, v0);
      StoreKeeps(m1, a + 28, 4, v1);
      assert W32(r, a + 24) == v0 && W32(r, a + 28) == v1;
      if disc == DISC_STRING {
        assert m[..limit] == r[..limit];
        TextKept(m, r, v0, v1, limit);
      }
    } else {
      var n := if disc == DISC_F32 then 4 else 8;
      var v := if disc == DISC_SIGNED && flats[0].I32? then SignExtend(orig[0]) else orig[0];
      assert CoreFits(disc, flats[0], orig[0]);
      LoadStored(m, a + 24, n, v);
      StoreKeeps(m, a + 24, n, v);
      if n == 8 {
        Load64(r, a + 24);
        WordBound(r, a + 24);
      }
    }
  }

  /** Every text the record at `a` refers to lies below `limit`. */
  predicate TextsBelow(m: Mem, a: nat, limit: nat)
    requires a + 32 <= |m|
  {
    && W32(m, a) + W32(m, a + 4) <= limit
    && W32(m, a + 8) + W32(m, a + 12) <= limit
    && (m[a + 16] == DISC_STRING || m[a + 16] == DISC_COMPLEX ==> W32(m, a + 24) + W32(m, a + 28) <= limit)
  }

  /** A record survives writes that spare its bytes and the low memory its texts are in. */
  lemma ArgAtKept(m: Mem, m': Mem, a: nat, limit: nat)
    requires a + 32 <= |m| == |m'| && limit <= |m| && m[..limit] == m'[..limit]
    requires forall i :: a <= i < a + 32 ==> m'[i] == m[i]
    requires TextsBelow(m, a, limit)
    ensures ArgAt(m', a) == ArgAt(m, a) && TextsBelow(m', a, limit)
  {
    hide Load;
    LoadAgrees(m, m', a, 4);
    LoadAgrees(m, m', a + 4, 4);
    LoadAgrees(m, m', a + 8, 4);
    LoadAgrees(m, m', a + 12, 4);
    LoadAgrees(m, m', a + 24, 4);
    LoadAgrees(m, m', a + 28, 4);
    TextKept(m, m', W32(m, a), W32(m, a + 4), limit);
    TextKept(m, m', W32(m, a + 8), W32(m, a + 12), limit);
    if m[a + 16] == DISC_STRING || m[a + 16] == DISC_COMPLEX {
      TextKept(m, m', W32(m, a + 24), W32(m, a + 28), limit);
    }
  }

  /** The `i`-th record holds what the advice is to be shown. */
  predicate RecordOk(c: Ctx, m: Mem, i: nat)
    requires Callable(c) && i < |c.f.params| && |m| == |c.mem0|
  {
    && ArgAt(m, c.Base() + 32 * i) == Some(AllShown(c.f, c.orig, c.mem0)[i])
    && TextsBelow(m, c.Base() + 32 * i, c.heap0)
  }

  /** The memory once the `i`-th record is written. */
  function RecordMem(c: Ctx, m: Mem, i: nat): (r: Mem)
    requires Callable(c) && i < |c.f.params| && |m| == |c.mem0|
    ensures |r| == |m|
  {
    var a := c.Base() + 32 * i;
    PayloadMem(HeaderMem(m, a, c.s.params[i], c.f.paramDiscs[i]), a, c.f.paramDiscs[i], c.f.paramFlats[i], c.orig[i])
  }

  /** A header and a payload together read back as the argument shown. */
  lemma RecordReads(m0: Mem, m: Mem, a: nat, sp: ParamStrings, p: Param, disc: nat, flats: seq<WT>, orig: seq<nat>,
                    limit: nat)
    requires limit <= a && a + 32 <= |m| == |m0| <= 65536 && m[..limit] == m0[..limit]
    requires FlatsFit(disc, flats, orig)
    requires disc == DISC_STRING ==> orig[0] + orig[1] <= limit
    requires StringIn(m0, sp.nameOff, sp.nameLen, limit, p.name)
              && StringIn(m0, sp.typeOff, sp.typeLen, limit, TypeName(p.ty))
    ensures var r := PayloadMem(HeaderMem(m, a, sp, disc), a, disc, flats, orig);
            && ArgAt(r, a) == Some(Shown(p, disc, flats, orig, m0))
            && TextsBelow(r, a, limit)
            && r[..limit] == m0[..limit]
            && (forall j :: 0 <= j < |m| && !(a <= j < a + 32) ==> r[j] == m[j])
  {
    var h := HeaderMem(m, a, sp, disc);
    var r := PayloadMem(h, a, disc, flats, orig);
    hide Load, Store, TypeName, HeaderMem, FromCore;
    HeaderReads(m, a, sp, disc);
    PayloadReads(h, a, disc, flats, orig, limit);
    if disc == DISC_STRING || disc == DISC_COMPLEX {
      RecordPayloadBelow(h, a, disc, flats, orig, limit);
    }
    if disc == DISC_STRING {
      assert h[..limit] == m0[..limit];
      TextKept(m0, h, orig[0], orig[1], limit);
    }
    hide PayloadMem, ValueAt;
    assert r[a + 16] == h[a + 16];
    assert W32(r, a) == sp.nameOff && W32(r, a + 4) == sp.nameLen && W32(r, a + 8) == sp.typeOff
      && W32(r, a + 12) == sp.typeLen;
    assert r[..limit] == m0[..limit];
    TextKept(m0, r, sp.nameOff, sp.nameLen, limit);
    TextKept(m0, r, sp.typeOff, sp.typeLen, limit);
  }

  lemma RecordWritten(c: Ctx, m: Mem, i: nat)
    requires Callable(c) && i < |c.f.params| && Low(c, m)
    ensures RecordOk(c, RecordMem(c, m, i), i)
    ensures Low(c, RecordMem(c, m, i))
    ensures forall j :: 0 <= j < |m| && !(c.Base() + 32 * i <= j < c.Base() + 32 * i + 32) ==>
              RecordMem(c, m, i)[j] == m[j]
  {
    hide Load, Store, TypeName, HeaderMem, PayloadMem, ArgAt, Shown, TextsBelow, StringIn;
    RecordReads(c.mem0, m, c.Base() + 32 * i, c.s.params[i], c.f.params[i], c.f.paramDiscs[i], c.f.paramFlats[i],
                c.orig[i], c.heap0);
  }

  lemma RecordPayloadBelow(m: Mem, a: nat, disc: nat, flats: seq<WT>, orig: seq<nat>, limit: nat)
    requires limit <= a && a + 32 <= |m| && FlatsFit(disc, flats, orig)
    requires disc == DISC_STRING || disc == DISC_COMPLEX
    requires disc == DISC_STRING ==> orig[0] + orig[1] <= limit
    ensures var r := PayloadMem(m, a, disc, flats, orig); W32(r, a + 24) + W32(r, a + 28) <= limit
  {
    Powers();
    hide Load, Pow256, Store;
    var v0, v1 := if disc == DISC_STRING then orig[0] else 0, if disc == DISC_STRING then orig[1] else 0;
    var m1 := Store(m, a + 24, 4, v0);
    LoadStored(m, a + 24, 4, v0);
    LoadStored(m1, a + 28, 4, v1);
    StoreKeeps(m1, a + 28, 4, v1);
  }

  // ---- Parameters lie at the prefix sums of their flats ----------------------------------------

  lemma {:induction false} SameStarts<T, U>(a: seq<seq<T>>, b: seq<seq<U>>, i: nat)
    requires i <= |a| == |b| && forall k :: 0 <= k < i ==> |a[k]| == |b[k]|
    ensures FlatStart(a, i) == FlatStart(b, i)
  {
    if i > 0 {
      FlatStartStep(a, i - 1);
      FlatStartStep(b, i - 1);
      SameStarts(a, b, i - 1);
    }
  }

  /** The `i`-th group of a concatenation starts at the `i`-th prefix sum. */
  lemma {:induction false} ConcatSlice<T>(groups: seq<seq<T>>, i: nat, k: nat)
    requires i < k <= |groups|
    ensures FlatStart(groups, i) + |groups[i]| <= |Concat(groups[..k])|
    ensures Concat(groups[..k])[FlatStart(groups, i)..FlatStart(groups, i) + |groups[i]|] == groups[i]
    decreases k
  {
    FlatStartStep(groups, k - 1);
    if i < k - 1 {
      ConcatSlice(groups, i, k - 1);
    }
  }

  lemma OrigSlice(c: Ctx, i: nat)
    requires Callable(c) && i < |c.orig|
    ensures var start := FlatStart(c.f.paramFlats, i);
            && start + |c.orig[i]| <= |Concat(c.orig)|
            && Concat(c.orig)[start..start + |c.orig[i]|] == c.orig[i]
  {
    hide StringsIn, StringIn, DiscFits, CoreFits;
    SameStarts(c.f.paramFlats, c.orig, i);
    ConcatSlice(c.orig, i, |c.orig|);
    assert c.orig[..|c.orig|] == c.orig;
  }

  /** The memory once the first `n` records are written. */
  function Marshalled(c: Ctx, m: Mem, n: nat): (r: Mem)
    requires Callable(c) && n <= |c.f.params| && |m| == |c.mem0|
    ensures |r| == |m|
  {
    if n == 0 then m else RecordMem(c, Marshalled(c, m, n - 1), n - 1)
  }

  /** Marshalling writes every record, inside the argument area, and nothing else. */
  lemma {:induction false} RunMarshal(c: Ctx, m: Machine, n: nat) returns (r: Mem)
    requires Callable(c) && n <= |c.f.params| && Low(c, m.mem) && m.params == Concat(c.orig)
    requires n > 0 ==> Local_(m, ArgsArea) == c.Base()
    ensures r == Marshalled(c, m.mem, n)
    ensures Run(c.f, Marshal(c.f, c.s, n), 0, m) == Next(m.(mem := r))
    ensures Low(c, r)
    ensures forall j :: 0 <= j < |m.mem| && !(c.Base() <= j < c.Base() + 32 * n) ==> r[j] == m.mem[j]
    ensures forall i :: 0 <= i < n ==> RecordOk(c, r, i)
  {
    hide Step, Run, Store, Load, RecordMem, MarshalRecord, RecordOk, StringIn, TypeName, OrigFits;
    if n == 0 {
      RunNone(c.f, m);
      r := m.mem;
    } else {
      var i, f := n - 1, c.f;
      var r0 := RunMarshal(c, m, i);
      var m0 := m.(mem := r0);
      r := RecordMem(c, r0, i);
      RunRecord(c, m0, i);
      RunSplit(f, Marshal(f, c.s, i), MarshalRecord(f, c.s, i), 0, m);
      RecordWritten(c, r0, i);
      forall k | 0 <= k < i
        ensures RecordOk(c, r, k)
      {
        RecordKept(c, r0, r, k);
      }
    }
  }

  lemma RecordKept(c: Ctx, m: Mem, m': Mem, k: nat)
    requires Callable(c) && k < |c.f.params| && Low(c, m) && Low(c, m') && RecordOk(c, m, k)
    requires forall j :: c.Base() + 32 * k <= j < c.Base() + 32 * k + 32 ==> m'[j] == m[j]
    ensures RecordOk(c, m', k)
  {
    hide ArgAt, TextsBelow, StringsIn;
    ArgAtKept(m, m', c.Base() + 32 * k, c.heap0);
  }

  lemma CtxFlats(c: Ctx, i: nat)
    requires Callable(c) && i < |c.f.params|
    ensures |c.orig| == |c.s.params| == |c.f.params| == |c.f.paramDiscs| == |c.f.paramFlats|
    ensures FlatsFit(c.f.paramDiscs[i], c.f.paramFlats[i], c.orig[i])
    ensures var sp := c.s.params[i]; sp.nameOff < T32 && sp.nameLen < T32 && sp.typeOff < T32 && sp.typeLen < T32
    ensures c.f.paramDiscs[i] <= 6
  {
    hide CoreFits, TypeName;
  }

  lemma CtxRoom(c: Ctx, i: nat)
    requires Callable(c) && i < |c.f.params|
    ensures c.Base() + 32 * i + 32 <= |c.mem0| <= 65536
  {
    hide Consistent, OrigFits, StringsIn, AreaEnd;
  }

  lemma RunRecordHeader(c: Ctx, m: Machine, i: nat)
    requires Callable(c) && i < |c.f.params| && |m.mem| == |c.mem0|
    requires Local_(m, ArgsArea) == c.Base()
    ensures Run(c.f, MarshalHeader(c.s.params[i], c.f.paramDiscs[i], i * 32), 0, m)
            == Next(m.(mem := HeaderMem(m.mem, c.Base() + 32 * i, c.s.params[i], c.f.paramDiscs[i])))
  {
    hide Run, HeaderMem, MarshalHeader, Callable;
    CtxFlats(c, i);
    CtxRoom(c, i);
    RunHeader(c.f, c.s.params[i], c.f.paramDiscs[i], i * 32, m, c.Base() + 32 * i);
  }

  lemma RunRecordPayload(c: Ctx, m: Machine, i: nat)
    requires Callable(c) && i < |c.f.params| && |m.mem| == |c.mem0| && m.params == Concat(c.orig)
    requires Local_(m, ArgsArea) == c.Base()
    ensures |c.f.params| == |c.f.paramDiscs| == |c.f.paramFlats| == |c.orig|
    ensures FlatsFit(c.f.paramDiscs[i], c.f.paramFlats[i], c.orig[i]) && c.Base() + 32 * i + 32 <= |m.mem|
    ensures Run(c.f, MarshalPayload(c.f.paramDiscs[i], c.f.paramFlats[i], i * 32, FlatStart(c.f.paramFlats, i)), 0, m)
            == Next(m.(mem := PayloadMem(m.mem, c.Base() + 32 * i, c.f.paramDiscs[i], c.f.paramFlats[i], c.orig[i])))
  {
    hide Run, PayloadMem, MarshalPayload, Concat, Callable, DiscFits, CoreFits, FlatStart;
    CtxFlats(c, i);
    CtxRoom(c, i);
    OrigSlice(c, i);
    RunPayload(c.f, m, c.Base() + 32 * i, c.f.paramDiscs[i], c.f.paramFlats[i], c.orig[i], i * 32,
               FlatStart(c.f.paramFlats, i));
  }

  lemma RunRecord(c: Ctx, m: Machine, i: nat)
    requires Callable(c) && i < |c.f.params| && |m.mem| == |c.mem0| && m.params == Concat(c.orig)
    requires Local_(m, ArgsArea) == c.Base()
    ensures Run(c.f, MarshalRecord(c.f, c.s, i), 0, m) == Next(m.(mem := RecordMem(c, m.mem, i)))
  {
    hide Run, HeaderMem, PayloadMem, MarshalPayload, MarshalHeader, Concat, Callable, DiscFits, CoreFits, FlatStart;
    var f := c.f;
    CtxFlats(c, i);
    CtxRoom(c, i);
    RunRecordHeader(c, m, i);
    var h := m.(mem := HeaderMem(m.mem, c.Base() + 32 * i, c.s.params[i], f.paramDiscs[i]));
    RunRecordPayload(c, h, i);
    RunSplit(f, MarshalHeader(c.s.params[i], f.paramDiscs[i], i * 32),
             MarshalPayload(f.paramDiscs[i], f.paramFlats[i], i * 32, FlatStart(f.paramFlats, i)), 0, m);
  }
}
