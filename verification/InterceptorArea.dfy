/**
 * The area a target's result is stored in. Its size is summed up from core values, while the host stores the result by
 * its memory layout; what keeps the two apart is a list that the host happens to have put in between.
 */
module InterceptorArea {
  import opened Wrappers
  import opened Memory
  import opened CanonicalAbi
  import opened Layouts
  import opened Signature
  import opened Protocol
  import opened CoreWasm
  import opened InterceptorEntry
  import opened InterceptorBefore

  /** How far above the area's start the host may have put something by the time the target answers, at the least. */
  function Headroom(f: InterceptedFunction): nat {
    AlignUp(RetSize(f.resultFlats), 8) + 32 * |f.params|
  }

  /** The result ends below the first block the host takes after `before` has answered. */
  predicate Roomy(f: InterceptedFunction) {
    f.usesRetarea ==> Extent(ResultLayout(f)) <= Headroom(f)
  }

  /** The list of arguments lies above the watermark, whatever else the host allocates. */
  lemma HeapAbove(c: Ctx, mem: Mem, reply: Reply)
    requires Callable(c) && c.f.usesRetarea && BeforeFits(c, mem, c.Mark(), reply) && CallsTarget(c, reply)
    ensures c.RetAddr() + Headroom(c.f) <= reply.heap <= |reply.mem| == |mem|
  {
    hide HostWrote, ArgAt, StringsIn, OrigFits, RetSize, KindsMatch, Load, AlignUp, Consistent;
    CtxFacts(c);
    assert HostWrote(mem, c.Mark(), reply.mem, reply.heap, c.BeforeAddr(), 32);
    WroteWithin(mem, c.Mark(), reply.mem, reply.heap, c.BeforeAddr(), 32);
    var a := W32(reply.mem, c.BeforeAddr() + 8);
    AboveArea(c.RetAddr(), RetSize(c.f.resultFlats), a);
  }

  lemma AboveArea(ret: nat, size: nat, a: nat)
    requires ret % 8 == 0 && a % 8 == 0 && ret + size <= a
    ensures ret + AlignUp(size, 8) <= a
  {
    Eighths(ret, AlignUp(size, 8), a);
  }

  lemma Eighths(x: nat, y: nat, z: nat)
    requires x % 8 == 0 && y % 8 == 0 && z % 8 == 0 && x + y < z + 8
    ensures x + y <= z
  {
  }

  lemma WroteWithin(m: Mem, heap: nat, m': Mem, heap': nat, ret: nat, size: nat)
    requires HostWrote(m, heap, m', heap', ret, size)
    ensures |m'| == |m| && heap <= heap' <= |m|
  {
  }

  /** With headroom, nothing the host does in a round reaches the target's result once it is stored. */
  lemma RoundKeepsResult(c: Ctx, mem: Mem, script: seq<Reply>, v: Datum)
    requires Callable(c) && c.f.usesRetarea && Roomy(c.f)
    requires RoundFits(c, mem, script) && CallsTarget(c, script[1]) && script[2].result == Whole(v)
    ensures Lift(script[3].mem, ResultLayout(c.f), c.RetAddr()) == Some(v)
  {
    hide BeforeFits, Lower, Holds, Lift, Extent, Size, OrigFits, StringsIn, RetSize, KindsMatch, AfterAt;
    var l, ret, h := ResultLayout(c.f), c.RetAddr(), script[1].heap;
    HeapAbove(c, mem, script[1]);
    LowerHolds(script[1].mem, h, l, ret, v);
    var m2, h2, m3, h3 := script[2].mem, script[2].heap, script[3].mem, script[3].heap;
    assert HostWrote(m2, h2, m3, h3, c.AfterAddr(), 32);
    HoldsKept(m2, m3, h, h2, h, h2, l, ret, v);
    HoldsLift(m3, h, h2, l, ret, v);
  }
}
