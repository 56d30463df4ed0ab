/** The fragment of core wasm the generator emits, with its meaning and its type rules. */
module CoreWasm {
  import opened Wrappers
  import opened Memory
  import opened CanonicalAbi
  import opened Layouts
  import opened Signature
  import opened Protocol

  // ---- Syntax ---------------------------------------------------------------------------------

  /** The named locals an interceptor declares. */
  datatype Local =
    | ArgsArea | Handle | BeforeRet | AfterRet | Disc | Watermark | TargetRet | Out | ResultVal
    | ResultPart(j: nat) | ArgVal(pi: nat) | ArgPart(pi: nat, j: nat)

  datatype LoadOp = I32Load | I32Load8U | I64Load | F32Load | F64Load {
    function Width(): nat {
      if I32Load8U? then 1 else if I64Load? || F64Load? then 8 else 4
    }
    function Type(): WT {
      match this case I64Load => I64 case F32Load => F32 case F64Load => F64 case _ => I32
    }
  }

  datatype StoreOp = I32Store | I32Store8 | I64Store | F32Store | F64Store {
    function Width(): nat {
      if I32Store8? then 1 else if I64Store? || F64Store? then 8 else 4
    }
    function Limit(): (r: nat)
      ensures r > 0
    {
      if I32Store8? then 256 else if I64Store? || F64Store? then T64 else T32
    }
    function Type(): WT {
      match this case I64Store => I64 case F32Store => F32 case F64Store => F64 case _ => I32
    }
  }

  datatype Expr =
    | GetParam(i: nat)
    | Get(l: Local)
    | Heap
    | Const32(n: nat)
    | Const64(n: nat)
    | Add(a: Expr, b: Expr)
    | Eq(a: Expr, b: Expr)
    | Ne(a: Expr, b: Expr)
    | LoadE(op: LoadOp, offset: nat, addr: Expr)
    | WrapI64(e: Expr)
    | ExtendS(e: Expr)
    | ExtendU(e: Expr)
    | ReinterpretF32(e: Expr)
    | ReinterpretF64(e: Expr)

  datatype Instr =
    | Set(l: Local, e: Expr)
    | SetHeap(e: Expr)
    | StoreI(op: StoreOp, offset: nat, addr: Expr, e: Expr)
    | SetAlloc(l: Local, size: nat)
    | SetNew(l: Local, name: Expr, len: Expr, list: Expr, count: Expr)
    | CallBefore(handle: Expr, ret: Expr)
    | CallTarget(dst: Option<Local>, args: seq<Expr>)
    | CallAfter(handle: Expr, some: Expr, tag: Expr, wide: Expr, narrow: Expr, ret: Expr)
    | CallDrop(handle: Expr)
    | If(cond: Expr, then_: seq<Instr>)
    | Block(body: seq<Instr>)
    | LoopI(body: seq<Instr>)
    | BrDone
    | BrRetry
    | Unreachable

  datatype Func = Func(params: seq<WT>, results: seq<WT>, locals: seq<(Local, WT)>, body: seq<Instr>, ret: seq<Expr>)

  // ---- Meaning ----------------------------------------------------------------------------------

  /** A running activation: its locals start at zero, and the host's replies are still to come. */
  datatype Machine = Machine(params: seq<nat>, locals: map<Local, nat>, mem: Mem, heap: nat, script: seq<Reply>,
                             trace: seq<Event>)

  function Local_(m: Machine, l: Local): nat {
    if l in m.locals then m.locals[l] else 0
  }

  /** None: an out-of-bounds load. */
  function Eval(e: Expr, m: Machine): Option<nat> {
    match e
    case GetParam(i) => Some(if i < |m.params| then m.params[i] else 0)
    case Get(l) => Some(Local_(m, l))
    case Heap => Some(m.heap)
    case Const32(n) => Some(n % T32)
    case Const64(n) => Some(n % T64)
    case Add(a, b) => (match (Eval(a, m), Eval(b, m)) case (Some(x), Some(y)) => Some((x + y) % T32) case _ => None)
    case Eq(a, b) => (match (Eval(a, m), Eval(b, m)) case (Some(x), Some(y)) => Some(if x == y then 1 else 0)
                      case _ => None)
    case Ne(a, b) => (match (Eval(a, m), Eval(b, m)) case (Some(x), Some(y)) => Some(if x != y then 1 else 0)
                      case _ => None)
    case LoadE(op, offset, addr) =>
      (match Eval(addr, m)
       case None => None
       case Some(a) => if a + offset + op.Width() <= |m.mem| then Some(Load(m.mem, a + offset, op.Width())) else None)
    case WrapI64(x) => (match Eval(x, m) case Some(v) => Some(v % T32) case None => None)
    case ExtendS(x) => (match Eval(x, m) case Some(v) => Some(SignExtend(v)) case None => None)
    case ExtendU(x) => Eval(x, m)
    case ReinterpretF32(x) => Eval(x, m)
    case ReinterpretF64(x) => Eval(x, m)
  }

  function EvalAll(es: seq<Expr>, m: Machine): Option<seq<nat>> {
    if es == [] then Some([]) else
    match (EvalAll(es[..|es| - 1], m), Eval(es[|es| - 1], m))
    case (Some(vs), Some(v)) => Some(vs + [v])
    case _ => None
  }

  datatype Why = Unreached | OutOfBounds | IllTyped

  /** How a piece of code ends. `Waiting`: the script has no admissible reply for the next host call. */
  datatype End = Next(m: Machine) | ToDone(m: Machine) | ToRetry(m: Machine) | Trap(why: Why, m: Machine) | Waiting

  /** The host wrote only the return area and memory it took from `cabi_realloc`. */
  ghost predicate HostWrote(m: Mem, heap: nat, m': Mem, heap': nat, ret: nat, size: nat) {
    && |m'| == |m|
    && heap <= heap' <= |m|
    && forall i :: 0 <= i < |m| && !(ret <= i < ret + size) && !(heap <= i < heap') ==> m'[i] == m[i]
  }

  /** The option<value> slot of an action, its tag at `a` and its value at `a` + 8. An absent value is never written. */
  ghost predicate SlotAt(m: Mem, heap: nat, a: nat, present: bool, slot: Value)
    requires a + 24 <= |m|
  {
    && m[a] == (if present then 1 else 0)
    && slot == (if present then ValueAt(m, a + 8) else Junk(m[a + 8], W32(m, a + 16), W32(m, a + 20)))
    && (present && slot.Str? ==> W32(m, a + 16) + W32(m, a + 20) <= heap)
  }

  /** A list of records at `a`, in a block the host took while the allocator moved from `low` to `heap`. */
  ghost predicate ListAt(m: Mem, low: nat, heap: nat, a: nat, args: seq<Arg>) {
    low <= a && a + 32 * |args| <= heap && ArgsAt(m, a, args)
  }

  ghost predicate BeforeAt(m: Mem, low: nat, heap: nat, r: nat, n: nat, action: BeforeAction)
    requires r + 32 <= |m|
  {
    match action
    case Proceed(args) => m[r] == 0 && |args| == n && ListAt(m, low, heap, W32(m, r + 8), args)
    case Skip(present, slot) => m[r] == 1 && SlotAt(m, heap, r + 8, present, slot)
    case BeforeError => m[r] == 2
  }

  ghost predicate AfterAt(m: Mem, low: nat, heap: nat, r: nat, n: nat, action: AfterAction)
    requires r + 32 <= |m|
  {
    match action
    case Accept(present, slot) => m[r] == 0 && SlotAt(m, heap, r + 8, present, slot)
    case Repeat(args) => m[r] == 1 && |args| == n && ListAt(m, low, heap, W32(m, r + 8), args)
    case AfterError => m[r] == 2
  }

  /** What the target's import handed back: a scalar `bits`, a text, or a value stored at `ret` by the canonical ABI. */
  ghost predicate ResultAt(f: InterceptedFunction, before: Mem, low: nat, m: Mem, heap: nat, ret: nat,
                           r: TargetResult) {
    && ResultFits(f, r)
    && (f.usesRetarea ==>
          match r
          case TextResult(text) =>
            && ret + 8 <= |m| && RetSize(f.resultFlats) == 8
            && W32(m, ret) + W32(m, ret + 4) <= heap
            && TextAt(m, W32(m, ret), W32(m, ret + 4)) == Some(text)
          case Whole(v) => Lower(before, low, ResultLayout(f), ret, v) == Some((m, heap))
          case _ => false)
  }

  /** The argument a target reads from its core parameters. */
  function Received(disc: nat, vals: seq<nat>, m: Mem): TargetArg {
    if disc == DISC_STRING && |vals| == 2 then TextArg(TextAt(m, vals[0], vals[1])) else CoreArg(vals)
  }

  /** Start of each parameter's flats among the core parameters. */
  function FlatStart<T>(groups: seq<seq<T>>, i: nat): nat
    requires i <= |groups|
  {
    |Concat(groups[..i])|
  }

  predicate Slices(f: InterceptedFunction, vals: seq<nat>) {
    && |f.paramDiscs| == |f.paramFlats|
    && forall i :: 0 <= i < |f.paramFlats| ==> FlatStart(f.paramFlats, i) + |f.paramFlats[i]| <= |vals|
  }

  function ReceivedAll(f: InterceptedFunction, vals: seq<nat>, m: Mem): seq<TargetArg>
    requires Slices(f, vals)
  {
    seq(|f.paramFlats|, i requires 0 <= i < |f.paramFlats| =>
      Received(f.paramDiscs[i], vals[FlatStart(f.paramFlats, i)..FlatStart(f.paramFlats, i) + |f.paramFlats[i]|], m))
  }

  /** What `after` is told, read back from its flattened option<value>. */
  function ToldAt(m: Mem, some: nat, tag: nat, wide: nat, narrow: nat): Option<Value> {
    if some == 0 then None
    else if tag == DISC_STRING then
      Some(match TextAt(m, wide % T32, narrow) case Some(text) => Str(text) case None => Junk(0, wide % T32, narrow))
    else if tag == DISC_SIGNED then Some(Signed(AsSigned(wide)))
    else if tag == DISC_UNSIGNED then Some(Unsigned(wide))
    else if tag == DISC_F32 then Some(Single(wide % T32))
    else if tag == DISC_F64 then Some(Double(wide))
    else if tag == DISC_BOOL then Some(Boolean(wide % T32 != 0))
    else Some(match TextAt(m, wide % T32, narrow) case Some(text) => Complex(text)
              case None => Junk(6, wide % T32, narrow))
  }

  ghost function Run(f: InterceptedFunction, c: seq<Instr>, k: nat, m: Machine): (o: End)
    requires k <= |c|
    ensures o.Next? || o.ToDone? || o.ToRetry? ==> |o.m.script| <= |m.script|
    decreases |m.script|, c, |c| - k
  {
    if k == |c| then Next(m) else
    match Step(f, c[k], m)
    case Next(m') => Run(f, c, k + 1, m')
    case o => o
  }

  ghost function Step(f: InterceptedFunction, i: Instr, m: Machine): (o: End)
    ensures o.Next? || o.ToDone? || o.ToRetry? ==> |o.m.script| <= |m.script|
    decreases |m.script|, i, 0
  {
    match i
    case Set(l, e) =>
      (match Eval(e, m) case None => Trap(OutOfBounds, m) case Some(v) => Next(m.(locals := m.locals[l := v])))
    case SetHeap(e) =>
      (match Eval(e, m) case None => Trap(OutOfBounds, m) case Some(v) => Next(m.(heap := v)))
    case StoreI(op, offset, addr, e) =>
      (match (Eval(addr, m), Eval(e, m))
       case (Some(a), Some(v)) =>
         if a + offset + op.Width() > |m.mem| then Trap(OutOfBounds, m)
         else Next(m.(mem := Store(m.mem, a + offset, op.Width(), v % op.Limit())))
       case _ => Trap(OutOfBounds, m))
    case SetAlloc(l, size) =>
      var p := AlignUp(m.heap, 8) % T32;
      Next(m.(locals := m.locals[l := p], heap := (p + size) % T32))
    case SetNew(l, name, len, list, count) => StepNew(f, l, name, len, list, count, m)
    case CallBefore(handle, ret) => StepBefore(f, handle, ret, m)
    case CallTarget(dst, args) => StepTarget(f, dst, args, m)
    case CallAfter(handle, some, tag, wide, narrow, ret) => StepAfter(f, handle, some, tag, wide, narrow, ret, m)
    case CallDrop(handle) =>
      (match Eval(handle, m) case None => Trap(OutOfBounds, m) case Some(h) => Next(m.(trace := m.trace + [Drop(h)])))
    case If(cond, then_) =>
      (match Eval(cond, m)
       case None => Trap(OutOfBounds, m)
       case Some(v) => if v != 0 then Run(f, then_, 0, m) else Next(m))
    case Block(body) =>
      (match Run(f, body, 0, m) case ToDone(m') => Next(m') case o => o)
    case LoopI(body) =>
      (match Run(f, body, 0, m)
       case ToRetry(m') => if |m'.script| < |m.script| then Step(f, i, m') else Waiting
       case o => o)
    case BrDone => ToDone(m)
    case BrRetry => ToRetry(m)
    case Unreachable => Trap(Unreached, m)
  }

  /** The `k` argument records at `a`, when they are all there. */
  ghost function Listed(m: Mem, a: nat, k: nat): Option<seq<Arg>> {
    if exists shown: seq<Arg> :: |shown| == k && ArgsAt(m, a, shown) then
      var shown: seq<Arg> :| |shown| == k && ArgsAt(m, a, shown);
      Some(shown)
    else None
  }

  /** The advice's constructor reads its whole argument list before anything else happens. */
  ghost function StepNew(f: InterceptedFunction, l: Local, name: Expr, len: Expr, list: Expr, count: Expr,
                         m: Machine): (o: End)
    ensures o.Next? || o.ToDone? || o.ToRetry? ==> |o.m.script| <= |m.script|
  {
    match (Eval(name, m), Eval(len, m), Eval(list, m), Eval(count, m))
    case (Some(p), Some(n), Some(a), Some(k)) =>
      (match (TextAt(m.mem, p, n), Listed(m.mem, a, k))
       case (Some(text), Some(shown)) =>
         if m.script == [] || !m.script[0].NewReply? then Waiting
         else
           var h := m.script[0].handle;
           Next(m.(locals := m.locals[l := h], script := m.script[1..], trace := m.trace + [New(text, shown, h)]))
       case _ => Trap(OutOfBounds, m))
    case _ => Trap(OutOfBounds, m)
  }

  ghost function StepBefore(f: InterceptedFunction, handle: Expr, ret: Expr, m: Machine): (o: End)
    ensures o.Next? || o.ToDone? || o.ToRetry? ==> |o.m.script| <= |m.script|
  {
    match (Eval(handle, m), Eval(ret, m))
    case (Some(h), Some(r)) =>
      if r % 8 != 0 || r + 32 > |m.mem| then Trap(OutOfBounds, m)
      else if m.script == [] || !m.script[0].BeforeReply? then Waiting
      else
        var reply := m.script[0];
        if !HostWrote(m.mem, m.heap, reply.mem, reply.heap, r, 32) then Waiting
        else if !BeforeAt(reply.mem, m.heap, reply.heap, r, |f.params|, reply.before) then Waiting
        else Next(m.(mem := reply.mem, heap := reply.heap, script := m.script[1..], trace := m.trace + [Before(h)]))
    case _ => Trap(OutOfBounds, m)
  }

  ghost function StepTarget(f: InterceptedFunction, dst: Option<Local>, args: seq<Expr>, m: Machine): (o: End)
    ensures o.Next? || o.ToDone? || o.ToRetry? ==> |o.m.script| <= |m.script|
  {
    match EvalAll(args, m)
    case None => Trap(OutOfBounds, m)
    case Some(vals) =>
      if |vals| != |f.coreParamsLower| || !Slices(f, vals) || (f.usesRetarea && vals == []) then Trap(IllTyped, m) else
      var ret := if f.usesRetarea then vals[|vals| - 1] else 0;
      var size := if f.usesRetarea then Size(ResultLayout(f)) else 0;
      if ret % 8 != 0 || ret + size > |m.mem| then Trap(OutOfBounds, m)
      else if m.script == [] || !m.script[0].TargetReply? then Waiting
      else
        var reply := m.script[0];
        if !HostWrote(m.mem, m.heap, reply.mem, reply.heap, ret, size) then Waiting
        else if !ResultAt(f, m.mem, m.heap, reply.mem, reply.heap, ret, reply.result) then Waiting
        else
          var locals := if dst.Some? && reply.result.Scalar? then m.locals[dst.value := reply.result.bits]
            else m.locals;
          Next(m.(locals := locals, mem := reply.mem, heap := reply.heap, script := m.script[1..],
                  trace := m.trace + [Target(ReceivedAll(f, vals, m.mem))]))
  }

  ghost function StepAfter(f: InterceptedFunction, handle: Expr, some: Expr, tag: Expr, wide: Expr, narrow: Expr,
                           ret: Expr, m: Machine): (o: End)
    ensures o.Next? || o.ToDone? || o.ToRetry? ==> |o.m.script| <= |m.script|
  {
    match (Eval(handle, m), Eval(some, m), Eval(tag, m), Eval(wide, m), Eval(narrow, m), Eval(ret, m))
    case (Some(h), Some(s), Some(t), Some(w), Some(n), Some(r)) =>
      if r % 8 != 0 || r + 32 > |m.mem| then Trap(OutOfBounds, m)
      else if m.script == [] || !m.script[0].AfterReply? then Waiting
      else
        var reply := m.script[0];
        if !HostWrote(m.mem, m.heap, reply.mem, reply.heap, r, 32) then Waiting
        else if !AfterAt(reply.mem, m.heap, reply.heap, r, |f.params|, reply.after) then Waiting
        else Next(m.(mem := reply.mem, heap := reply.heap, script := m.script[1..],
                     trace := m.trace + [After(h, ToldAt(m.mem, s, t, w, n))]))
    case _ => Trap(OutOfBounds, m)
  }

  // ---- Running pieces ------------------------------------------------------------------------------

  /** Code runs piece by piece. */
  lemma {:induction false} RunSplit(f: InterceptedFunction, a: seq<Instr>, b: seq<Instr>, k: nat, m: Machine)
    requires k <= |a|
    ensures Run(f, a + b, k, m) == (match Run(f, a, k, m) case Next(m') => Run(f, b, 0, m') case o => o)
    decreases |a| - k
  {
    if k == |a| {
      RunShift(f, a, b, 0, m);
    } else {
      assert (a + b)[k] == a[k];
      var o := Step(f, a[k], m);
      if o.Next? {
        RunSplit(f, a, b, k + 1, o.m);
      }
    }
  }

  lemma {:induction false} RunShift(f: InterceptedFunction, a: seq<Instr>, b: seq<Instr>, k: nat, m: Machine)
    requires k <= |b|
    ensures Run(f, a + b, |a| + k, m) == Run(f, b, k, m)
    decreases |b| - k
  {
    if k < |b| {
      assert (a + b)[|a| + k] == b[k];
      var o := Step(f, b[k], m);
      if o.Next? {
        RunShift(f, a, b, k + 1, o.m);
      }
    }
  }

  lemma RunNone(f: InterceptedFunction, m: Machine)
    ensures Run(f, [], 0, m) == Next(m)
  {
  }

  lemma RunOne(f: InterceptedFunction, i: Instr, m: Machine)
    ensures Run(f, [i], 0, m) == Step(f, i, m)
  {
    hide Step;
    var o := Step(f, i, m);
    if o.Next? {
      assert Run(f, [i], 1, o.m) == Next(o.m);
    }
  }

  /** Code ending in one more instruction. */
  lemma RunThen(f: InterceptedFunction, a: seq<Instr>, i: Instr, m: Machine)
    ensures Run(f, a + [i], 0, m) == if Run(f, a, 0, m).Next? then Step(f, i, Run(f, a, 0, m).m) else Run(f, a, 0, m)
  {
    hide Step;
    RunSplit(f, a, [i], 0, m);
    var o := Run(f, a, 0, m);
    if o.Next? {
      RunOne(f, i, o.m);
    }
  }

  /** Code starting with one instruction. */
  lemma RunFirst(f: InterceptedFunction, i: Instr, b: seq<Instr>, m: Machine)
    ensures Run(f, [i] + b, 0, m) == if Step(f, i, m).Next? then Run(f, b, 0, Step(f, i, m).m) else Step(f, i, m)
  {
    hide Step;
    RunSplit(f, [i], b, 0, m);
    RunOne(f, i, m);
  }

  // ---- Stepping the simple instructions --------------------------------------------------------------

  lemma StepSet(f: InterceptedFunction, l: Local, e: Expr, v: nat, m: Machine)
    requires Eval(e, m) == Some(v)
    ensures Step(f, Set(l, e), m) == Next(m.(locals := m.locals[l := v]))
  {
    hide StepNew, StepBefore, StepTarget, StepAfter, Run, Eval;
  }

  lemma StepSetHeap(f: InterceptedFunction, e: Expr, v: nat, m: Machine)
    requires Eval(e, m) == Some(v)
    ensures Step(f, SetHeap(e), m) == Next(m.(heap := v))
  {
    hide StepNew, StepBefore, StepTarget, StepAfter, Run, Eval;
  }

  lemma StepDrop(f: InterceptedFunction, e: Expr, v: nat, m: Machine)
    requires Eval(e, m) == Some(v)
    ensures Step(f, CallDrop(e), m) == Next(m.(trace := m.trace + [Drop(v)]))
  {
    hide StepNew, StepBefore, StepTarget, StepAfter, Run, Eval;
  }

  lemma StepAlloc(f: InterceptedFunction, l: Local, size: nat, m: Machine)
    requires AlignUp(m.heap, 8) + size < T32
    ensures Step(f, SetAlloc(l, size), m) ==
              Next(m.(locals := m.locals[l := AlignUp(m.heap, 8)], heap := AlignUp(m.heap, 8) + size))
  {
    hide StepNew, StepBefore, StepTarget, StepAfter, Run, Eval;
  }

  lemma StepStore(f: InterceptedFunction, op: StoreOp, offset: nat, addr: Expr, a: nat, e: Expr, v: nat, m: Machine)
    requires Eval(addr, m) == Some(a) && Eval(e, m) == Some(v) && v < op.Limit()
    ensures Step(f, StoreI(op, offset, addr, e), m) ==
            if a + offset + op.Width() > |m.mem| then Trap(OutOfBounds, m)
            else Next(m.(mem := Store(m.mem, a + offset, op.Width(), v)))
  {
    hide StepNew, StepBefore, StepTarget, StepAfter, Run, Eval, Store;
  }

  lemma StepIf(f: InterceptedFunction, cond: Expr, code: seq<Instr>, v: nat, m: Machine)
    requires Eval(cond, m) == Some(v)
    ensures Step(f, If(cond, code), m) == if v != 0 then Run(f, code, 0, m) else Next(m)
  {
    hide StepNew, StepBefore, StepTarget, StepAfter, Eval;
  }

  lemma StepJump(f: InterceptedFunction, m: Machine)
    ensures Step(f, BrDone, m) == ToDone(m) && Step(f, BrRetry, m) == ToRetry(m)
              && Step(f, Unreachable, m) == Trap(Unreached, m)
  {
    hide StepNew, StepBefore, StepTarget, StepAfter, Run, Eval;
  }

  lemma StepBlock(f: InterceptedFunction, body: seq<Instr>, m: Machine)
    ensures Step(f, Block(body), m) == if Run(f, body, 0, m).ToDone? then Next(Run(f, body, 0, m).m)
              else Run(f, body, 0, m)
    ensures Step(f, LoopI(body), m) ==
            if !Run(f, body, 0, m).ToRetry? then Run(f, body, 0, m)
            else if |Run(f, body, 0, m).m.script| < |m.script| then Step(f, LoopI(body), Run(f, body, 0, m).m)
            else Waiting
  {
    hide StepNew, StepBefore, StepTarget, StepAfter, Eval;
  }

  lemma StepHost(f: InterceptedFunction, m: Machine)
    ensures forall l, name, len, list, count ::
              Step(f, SetNew(l, name, len, list, count), m) == StepNew(f, l, name, len, list, count, m)
    ensures forall handle, ret :: Step(f, CallBefore(handle, ret), m) == StepBefore(f, handle, ret, m)
    ensures forall dst, args :: Step(f, CallTarget(dst, args), m) == StepTarget(f, dst, args, m)
    ensures forall handle, some, tag, wide, narrow, ret ::
              Step(f, CallAfter(handle, some, tag, wide, narrow, ret), m) ==
                StepAfter(f, handle, some, tag, wide, narrow, ret, m)
  {
    hide StepNew, StepBefore, StepTarget, StepAfter, Run, Eval;
  }

  lemma ListedIs(m: Mem, a: nat, args: seq<Arg>)
    requires ArgsAt(m, a, args)
    ensures Listed(m, a, |args|) == Some(args)
  {
    hide ArgsAt;
    forall shown: seq<Arg> | |shown| == |args| && ArgsAt(m, a, shown)
      ensures shown == args
    {
      ArgsUnique(m, a, shown, args);
    }
  }

  /** The list at an address is unique. */
  lemma ArgsUnique(m: Mem, a: nat, x: seq<Arg>, y: seq<Arg>)
    requires |x| == |y| && ArgsAt(m, a, x) && ArgsAt(m, a, y)
    ensures x == y
  {
    hide ArgAt;
    forall i | 0 <= i < |x|
      ensures x[i] == y[i]
    {
      assert ArgAt(m, a + 32 * i) == Some(x[i]) && ArgAt(m, a + 32 * i) == Some(y[i]);
    }
  }
}
