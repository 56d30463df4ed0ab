/** Reading the advice's answers: return-area slots, value words, and the returned value. */
module InterceptorSlots {
  import opened Wrappers
  import opened Memory
  import opened Layouts
  import opened Signature
  import opened Protocol
  import opened CoreWasm
  import opened Generator
  import opened InterceptorEntry

  predicate IsScalar(disc: nat) {
    disc != DISC_STRING && disc < DISC_COMPLEX
  }

  /** The value whose tag is at `a`: decoded, or the bytes an absent option left behind. */
  predicate HoldsValue(m: Mem, a: nat, v: Value) {
    a + 16 <= |m| && (v == ValueAt(m, a) || v == Junk(m[a], W32(m, a + 8), W32(m, a + 12)))
  }

  /** The core bits the emitted code takes from a slot. */
  function SlotBits(m: Mem, a: nat, disc: nat, flat: WT): nat
    requires a + 16 <= |m|
  {
    if disc == DISC_F32 then Load(m, a + 8, 4)
    else if disc != DISC_F64 && flat.I32? then Load(m, a + 8, 8) % T32
    else Load(m, a + 8, 8)
  }

  lemma TagRead(m: Mem, a: nat, v: Value)
    requires HoldsValue(m, a, v)
    ensures Tag(v) == m[a] && Load(m, a, 1) == m[a]
  {
    assert m[a..a + 1] == [m[a]];
    assert FromLE([m[a]]) == m[a] + 256 * FromLE([m[a]][1..]);
    hide Load;
  }

  /** Whatever the slot holds, its bits are the protocol's core form of it. */
  lemma SlotBitsAre(m: Mem, a: nat, disc: nat, flat: WT, v: Value)
    requires HoldsValue(m, a, v) && Tag(v) == disc && IsScalar(disc) && DiscFits(disc, [flat])
    ensures SlotBits(m, a, disc, flat) == ToCore(flat, v)
  {
    hide Load, TextAt;
    Load64(m, a + 8);
    WordBound(m, a + 8);
    WordBound(m, a + 12);
    assert [I32][0] == I32 && [I64][0] == I64 && [F32][0] == F32 && [F64][0] == F64 && [flat][0] == flat;
    assert |[I32, I32]| == 2;
  }

  /**
   * The value an interceptor returns, as its caller will lift it; a complex one in memory is whatever lies in the
   * area that the target was given.
   */
  ghost predicate Returned(c: Ctx, t: Machine, ret: Ret) {
    var out := Local_(t, Out);
    match ret
    case Void => c.f.resultDisc.None?
    case Given(v) =>
      if c.f.usesRetarea then
        && out % 8 == 0 && out + 8 <= |t.mem|
        && (v.Str? ==> TextAt(t.mem, W32(t.mem, out), W32(t.mem, out + 4)) == Some(v.text))
        && (v.Junk? ==> W32(t.mem, out) == v.lo && W32(t.mem, out + 4) == v.hi)
      else |c.f.resultFlats| == 1 && out == ToCore(c.f.resultFlats[0], v)
    case FromTarget(r) =>
      if c.f.usesRetarea then r.Whole? && out == c.RetAddr()
      else r == TargetResult.Scalar(out)
  }

  /** The eight bytes of a returned text do not fit in memory above `heap`. */
  predicate Tight(c: Ctx, heap: nat) {
    c.f.resultDisc == Some(DISC_STRING) && AlignUp(heap, 8) + 8 > |c.mem0|
  }

  lemma EvalLoad(op: LoadOp, off: nat, e: Expr, a: nat, m: Machine)
    requires Eval(e, m) == Some(a) && a + off + op.Width() <= |m.mem|
    ensures Eval(LoadE(op, off, e), m) == Some(Load(m.mem, a + off, op.Width()))
  {
    hide Load;
  }

  /** A scalar slot goes to the out local. */
  lemma UnwrapScalar(c: Ctx, m: Machine, base: Local, addr: nat, disc: nat, flat: WT, v: Value)
    requires Local_(m, base) == addr && addr + 32 <= |m.mem| && HoldsValue(m.mem, addr + 16, v)
    requires IsScalar(disc) && Tag(v) == disc && DiscFits(disc, [flat])
    ensures Run(c.f, UnwrapOut(disc, flat, false, base), 0, m) == Next(m.(locals := m.locals[Out := ToCore(flat, v)]))
  {
    hide Step, Run, Load, HoldsValue;
    SlotBitsAre(m.mem, addr + 16, disc, flat, v);
    hide ToCore, DiscFits, Tag;
    var code := UnwrapOut(disc, flat, false, base);
    UnwrapEval(m, base, addr, disc, flat);
    StepSet(c.f, Out, code[0].e, ToCore(flat, v), m);
    RunOne(c.f, code[0], m);
    assert code == [code[0]];
  }

  lemma UnwrapEval(m: Machine, base: Local, addr: nat, disc: nat, flat: WT)
    requires Local_(m, base) == addr && addr + 32 <= |m.mem| && IsScalar(disc)
    ensures var code := UnwrapOut(disc, flat, false, base);
            |code| == 1 && code[0].Set? && code[0].l == Out
              && Eval(code[0].e, m) == Some(SlotBits(m.mem, addr + 16, disc, flat))
  {
    hide Load;
    EvalLoad(F32Load, 24, Get(base), addr, m);
    EvalLoad(I64Load, 24, Get(base), addr, m);
    EvalLoad(F64Load, 24, Get(base), addr, m);
  }

  /** A text slot is copied to a fresh eight-byte area; the text itself is left where the host put it. */
  lemma UnwrapText(c: Ctx, m: Machine, base: Local, addr: nat, flat: WT) returns (o: End)
    requires Local_(m, base) == addr && addr + 32 <= |m.mem| && base != Out && |m.mem| <= 65536 && m.heap <= |m.mem|
    ensures o == Run(c.f, UnwrapOut(DISC_STRING, flat, true, base), 0, m)
    ensures var out := AlignUp(m.heap, 8);
            if out + 8 > |m.mem| then o.Trap? && o.why == OutOfBounds && o.m.trace == m.trace
            else
              && addr + 32 <= m.heap ==> (
              && o.Next? && o.m == m.(locals := m.locals[Out := out], mem := o.m.mem, heap := out + 8)
              && |o.m.mem| == |m.mem|
              && W32(o.m.mem, out) == W32(m.mem, addr + 24) && W32(o.m.mem, out + 4) == W32(m.mem, addr + 28)
              && forall i :: 0 <= i < |m.mem| && !(out <= i < out + 8) ==> o.m.mem[i] == m.mem[i])
  {
    hide Step, Run, Load, Store;
    Powers();
    var f, out := c.f, AlignUp(m.heap, 8);
    var code := UnwrapOut(DISC_STRING, flat, true, base);
    o := Run(f, code, 0, m);
    StepAlloc(f, Out, 8, m);
    var m1 := m.(locals := m.locals[Out := out], heap := out + 8);
    assert code == [code[0]] + [code[1], code[2]] && [code[1], code[2]] == [code[1]] + [code[2]];
    RunFirst(f, code[0], [code[1], code[2]], m);
    EvalLoad(I32Load, 24, Get(base), addr, m1);
    var lo := W32(m.mem, addr + 24);
    WordBound(m.mem, addr + 24);
    StepStore(f, I32Store, 0, Get(Out), out, code[1].e, lo, m1);
    RunFirst(f, code[1], [code[2]], m1);
    if out + 4 <= |m.mem| {
      var m2 := m1.(mem := Store(m1.mem, out, 4, lo));
      EvalLoad(I32Load, 28, Get(base), addr, m2);
      var hi := W32(m2.mem, addr + 28);
      WordBound(m2.mem, addr + 28);
      StepStore(f, I32Store, 4, Get(Out), out, code[2].e, hi, m2);
      RunOne(f, code[2], m2);
      if out + 8 <= |m.mem| && addr + 32 <= m.heap {
        StoreKeeps(m.mem, out, 4, lo);
        StoreKeeps(m2.mem, out + 4, 4, hi);
        LoadStored(m.mem, out, 4, lo);
        LoadStored(m2.mem, out + 4, 4, hi);
      }
    }
  }
}
