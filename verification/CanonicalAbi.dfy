/**
 * How the host moves a value through memory: it stores it at an address, taking a block from the allocator for each
 * text and list, and loads it back (Canonical ABI of the Component Model, sections "Storing" and "Loading").
 */
module CanonicalAbi {
  import opened Wrappers
  import opened Memory
  import opened Layouts

  /** A component value, without the names of its type. */
  datatype Datum = Bits(n: nat) | Many(parts: seq<Datum>) | Case(index: nat, payload: Datum) | Items(items: seq<Datum>)

  /** Where the `i`th element of a block at `p` starts. */
  function ItemAt(e: Layout, p: nat, i: nat): (r: nat)
    ensures p <= r
  {
    if i == 0 then p else ItemAt(e, p, i - 1) + Size(e)
  }

  lemma {:induction false} ItemsApart(e: Layout, p: nat, i: nat, j: nat)
    requires i < j
    ensures ItemAt(e, p, i) + Size(e) == ItemAt(e, p, i + 1) <= ItemAt(e, p, j)
    decreases j
  {
    if i < j - 1 {
      ItemsApart(e, p, i, j - 1);
    }
  }

  predicate Aligned(p: nat, align: Width) {
    (align == 2 ==> p % 2 == 0) && (align == 4 ==> p % 4 == 0) && (align == 8 ==> p % 8 == 0)
  }

  // ---- Storing ------------------------------------------------------------------------------------------------

  /** Stores `v` at `a`, the allocator standing at `h`; None where the value does not fit its type or memory. */
  function Lower(m: Mem, h: nat, l: Layout, a: nat, v: Datum): (r: Option<(Mem, nat)>)
    ensures r.Some? ==> |r.value.0| == |m|
    decreases l, 2, 0
  {
    match l
    case Prim(_, width) =>
      if v.Bits? && v.n < Pow256(width) && a + width <= |m| then Some((Store(m, a, width, v.n), h)) else None
    case Fields(fields) =>
      if v.Many? && |v.parts| == |fields| then LowerParts(m, h, l, a, v.parts, |fields|) else None
    case Cases(cases) =>
      if v.Case? && v.index < |cases| < T32 && a + TagWidth(|cases|) <= |m| then
        Lower(Store(m, a, TagWidth(|cases|), v.index), h, cases[v.index], a + PayloadAt(l), v.payload)
      else None
    case Pointed(elem) =>
      if !v.Items? || |v.items| >= T32 || a + 8 > |m| then None else
      var p := AlignUp(h, Align(elem));
      if p >= T32 || ItemAt(elem, p, |v.items|) > |m| then None else
      match LowerItems(m, ItemAt(elem, p, |v.items|), elem, p, v.items, |v.items|)
      case None => None
      case Some((m1, h1)) => Some((Store(Store(m1, a, 4, p), a + 4, 4, |v.items|), h1))
  }

  /** The first `k` parts, one after another. */
  function LowerParts(m: Mem, h: nat, l: Layout, a: nat, vs: seq<Datum>, k: nat): (r: Option<(Mem, nat)>)
    requires k <= |vs| == |Parts(l)|
    ensures r.Some? ==> |r.value.0| == |m|
    decreases l, 1, k
  {
    if k == 0 then Some((m, h)) else
    match LowerParts(m, h, l, a, vs, k - 1)
    case None => None
    case Some((m1, h1)) => Lower(m1, h1, Parts(l)[k - 1], a + PartAt(l, k - 1), vs[k - 1])
  }

  /** The first `k` elements of a block at `p`. */
  function LowerItems(m: Mem, h: nat, e: Layout, p: nat, vs: seq<Datum>, k: nat): (r: Option<(Mem, nat)>)
    requires k <= |vs|
    ensures r.Some? ==> |r.value.0| == |m|
    decreases e, 3, k
  {
    if k == 0 then Some((m, h)) else
    match LowerItems(m, h, e, p, vs, k - 1)
    case None => None
    case Some((m1, h1)) => Lower(m1, h1, e, ItemAt(e, p, k - 1), vs[k - 1])
  }

  // ---- Loading ------------------------------------------------------------------------------------------------

  /** Loads the value at `a`; None where there is none. */
  function Lift(m: Mem, l: Layout, a: nat): Option<Datum>
    decreases l, 0
  {
    match l
    case Prim(_, width) => if a + width <= |m| then Some(Bits(Load(m, a, width))) else None
    case Fields(fields) =>
      if forall j :: 0 <= j < |fields| ==> Lift(m, fields[j], a + PartAt(l, j)).Some?
      then Some(Many(seq(|fields|, j requires 0 <= j < |fields| => Lift(m, fields[j], a + PartAt(l, j)).value)))
      else None
    case Cases(cases) =>
      if a + TagWidth(|cases|) > |m| then None else
      var k := Load(m, a, TagWidth(|cases|));
      if k >= |cases| then None else
      (match Lift(m, cases[k], a + PayloadAt(l))
       case None => None
       case Some(v) => Some(Case(k, v)))
    case Pointed(elem) =>
      if a + 8 > |m| then None else
      var p, n := W32(m, a), W32(m, a + 4);
      if !Aligned(p, Align(elem)) || ItemAt(elem, p, n) > |m| then None
      else if forall i :: 0 <= i < n ==> Lift(m, elem, ItemAt(elem, p, i)).Some?
      then Some(Items(seq(n, i requires 0 <= i < n => Lift(m, elem, ItemAt(elem, p, i)).value)))
      else None
  }

  // ---- Where a value lies -------------------------------------------------------------------------------------

  /** `v` lies at `a`, what it points to between `lo` and `hi`. */
  ghost predicate Holds(m: Mem, lo: nat, hi: nat, l: Layout, a: nat, v: Datum)
    decreases l
  {
    match l
    case Prim(_, width) => a + width <= |m| && v == Bits(Load(m, a, width))
    case Fields(fields) =>
      && v.Many? && |v.parts| == |fields|
      && forall j :: 0 <= j < |fields| ==> Holds(m, lo, hi, fields[j], a + PartAt(l, j), v.parts[j])
    case Cases(cases) =>
      && v.Case? && v.index < |cases| && a + TagWidth(|cases|) <= |m|
      && Load(m, a, TagWidth(|cases|)) == v.index
      && Holds(m, lo, hi, cases[v.index], a + PayloadAt(l), v.payload)
    case Pointed(elem) =>
      && v.Items? && a + 8 <= |m|
      && var p, n := W32(m, a), |v.items|;
      && W32(m, a + 4) == n && lo <= p && Aligned(p, Align(elem)) && ItemAt(elem, p, n) <= hi <= |m|
      && forall i :: 0 <= i < n ==> Holds(m, lo, hi, elem, ItemAt(elem, p, i), v.items[i])
  }

  predicate Agree(m: Mem, m': Mem, from: nat, to: nat) {
    |m'| == |m| && forall i :: from <= i < to && i < |m| ==> m'[i] == m[i]
  }

  /** A value stays as long as its own bytes and the blocks it points to do. */
  lemma {:induction false} HoldsKept(m: Mem, m': Mem, lo: nat, hi: nat, lo': nat, hi': nat, l: Layout, a: nat, v: Datum)
    requires Holds(m, lo, hi, l, a, v) && lo' <= lo && hi <= hi' <= |m|
    requires Agree(m, m', a, a + Extent(l)) && Agree(m, m', lo, hi)
    ensures Holds(m', lo', hi', l, a, v)
    decreases l, 1
  {
    match l {
      case Prim(_, width) => LoadAgrees(m, m', a, width);
      case Fields(_) => FieldsKept(m, m', lo, hi, lo', hi', l, a, v);
      case Cases(_) => CaseKept(m, m', lo, hi, lo', hi', l, a, v);
      case Pointed(_) => ItemsKept(m, m', lo, hi, lo', hi', l, a, v);
    }
  }

  lemma {:induction false} FieldsKept(m: Mem, m': Mem, lo: nat, hi: nat, lo': nat, hi': nat, l: Layout, a: nat,
                                      v: Datum)
    requires l.Fields? && Holds(m, lo, hi, l, a, v) && lo' <= lo && hi <= hi' <= |m|
    requires Agree(m, m', a, a + Extent(l)) && Agree(m, m', lo, hi)
    ensures Holds(m', lo', hi', l, a, v)
    decreases l, 0
  {
    forall j | 0 <= j < |l.fields|
      ensures Holds(m', lo', hi', l.fields[j], a + PartAt(l, j), v.parts[j])
    {
      if Extent(l.fields[j]) > 0 {
        ExtentIs(l, j, |l.fields|);
      }
      assert Holds(m, lo, hi, l.fields[j], a + PartAt(l, j), v.parts[j]);
      HoldsKept(m, m', lo, hi, lo', hi', l.fields[j], a + PartAt(l, j), v.parts[j]);
    }
  }

  lemma {:induction false} CaseKept(m: Mem, m': Mem, lo: nat, hi: nat, lo': nat, hi': nat, l: Layout, a: nat, v: Datum)
    requires l.Cases? && Holds(m, lo, hi, l, a, v) && lo' <= lo && hi <= hi' <= |m|
    requires Agree(m, m', a, a + Extent(l)) && Agree(m, m', lo, hi)
    ensures Holds(m', lo', hi', l, a, v)
    decreases l, 0
  {
    LoadAgrees(m, m', a, TagWidth(|l.cases|));
    LargestIs(l, v.index, |l.cases|);
    HoldsKept(m, m', lo, hi, lo', hi', l.cases[v.index], a + PayloadAt(l), v.payload);
  }

  lemma {:induction false} ItemsKept(m: Mem, m': Mem, lo: nat, hi: nat, lo': nat, hi': nat, l: Layout, a: nat, v: Datum)
    requires l.Pointed? && Holds(m, lo, hi, l, a, v) && lo' <= lo && hi <= hi' <= |m|
    requires Agree(m, m', a, a + Extent(l)) && Agree(m, m', lo, hi)
    ensures Holds(m', lo', hi', l, a, v)
    decreases l, 0
  {
    var elem, p, n := l.elem, W32(m, a), |v.items|;
    LoadAgrees(m, m', a, 4);
    LoadAgrees(m, m', a + 4, 4);
    ExtentFits(elem);
    forall i | 0 <= i < n
      ensures Holds(m', lo', hi', elem, ItemAt(elem, p, i), v.items[i])
    {
      ItemsApart(elem, p, i, n);
      assert Holds(m, lo, hi, elem, ItemAt(elem, p, i), v.items[i]);
      hide ItemAt, Load;
      HoldsKept(m, m', lo, hi, lo', hi', elem, ItemAt(elem, p, i), v.items[i]);
    }
  }

  /** What lies somewhere is what is loaded from there. */
  lemma {:induction false} HoldsLift(m: Mem, lo: nat, hi: nat, l: Layout, a: nat, v: Datum)
    requires Holds(m, lo, hi, l, a, v)
    ensures Lift(m, l, a) == Some(v)
    decreases l, 1
  {
    hide Load, ItemAt, PartAt, PayloadAt;
    match l {
      case Prim(_, _) =>
      case Fields(_) => FieldsLift(m, lo, hi, l, a, v);
      case Cases(_) => CaseLift(m, lo, hi, l, a, v);
      case Pointed(_) => ItemsLift(m, lo, hi, l, a, v);
    }
  }

  lemma {:induction false} CaseLift(m: Mem, lo: nat, hi: nat, l: Layout, a: nat, v: Datum)
    requires l.Cases? && Holds(m, lo, hi, l, a, v)
    ensures Lift(m, l, a) == Some(v)
    decreases l, 0
  {
    hide Load, PayloadAt;
    HoldsLift(m, lo, hi, l.cases[v.index], a + PayloadAt(l), v.payload);
  }

  lemma {:induction false} FieldsLift(m: Mem, lo: nat, hi: nat, l: Layout, a: nat, v: Datum)
    requires l.Fields? && Holds(m, lo, hi, l, a, v)
    ensures Lift(m, l, a) == Some(v)
    decreases l, 0
  {
    hide Load, PartAt, ItemAt;
    forall j | 0 <= j < |l.fields|
      ensures Lift(m, l.fields[j], a + PartAt(l, j)) == Some(v.parts[j])
    {
      assert Holds(m, lo, hi, l.fields[j], a + PartAt(l, j), v.parts[j]);
      HoldsLift(m, lo, hi, l.fields[j], a + PartAt(l, j), v.parts[j]);
    }
    assert Lift(m, l, a).value.parts == v.parts;
  }

  lemma {:induction false} ItemsLift(m: Mem, lo: nat, hi: nat, l: Layout, a: nat, v: Datum)
    requires l.Pointed? && Holds(m, lo, hi, l, a, v)
    ensures Lift(m, l, a) == Some(v)
    decreases l, 0
  {
    var elem, p := l.elem, W32(m, a);
    forall i | 0 <= i < |v.items|
      ensures Lift(m, elem, ItemAt(elem, p, i)) == Some(v.items[i])
    {
      assert Holds(m, lo, hi, elem, ItemAt(elem, p, i), v.items[i]);
      HoldsLift(m, lo, hi, elem, ItemAt(elem, p, i), v.items[i]);
    }
    hide ItemAt, Load;
    assert Lift(m, l, a).value.items == v.items;
  }

  // ---- What storing touches -----------------------------------------------------------------------------------

  /** Only the value's own bytes and the blocks taken from the allocator are written. */
  predicate Wrote(m: Mem, h: nat, m': Mem, h': nat, from: nat, to: nat) {
    && |m'| == |m| && h <= h' && (h <= |m| ==> h' <= |m|)
    && forall i :: 0 <= i < |m| && !(from <= i < to) && !(h <= i < h') ==> m'[i] == m[i]
  }

  lemma StoreWrote(m: Mem, h: nat, a: nat, n: nat, v: nat)
    requires a + n <= |m|
    ensures Wrote(m, h, Store(m, a, n, v), h, a, a + n)
  {
  }

  lemma WroteTwice(m: Mem, h: nat, m1: Mem, h1: nat, m2: Mem, h2: nat, from: nat, to: nat, x: nat, y: nat)
    requires Wrote(m, h, m1, h1, from, to) && Wrote(m1, h1, m2, h2, x, y)
    requires x < y ==> from <= x && y <= to
    ensures Wrote(m, h, m2, h2, from, to)
  {
  }

  lemma {:induction false} LowerWrote(m: Mem, h: nat, l: Layout, a: nat, v: Datum)
    requires Lower(m, h, l, a, v).Some?
    ensures var r := Lower(m, h, l, a, v).value; Wrote(m, h, r.0, r.1, a, a + Extent(l))
    decreases l, 2, 0
  {
    hide Wrote, Store;
    match l {
      case Prim(_, width) => StoreWrote(m, h, a, width, v.n);
      case Fields(fields) => PartsWrote(m, h, l, a, v.parts, |fields|);
      case Cases(_) => CaseWrote(m, h, l, a, v);
      case Pointed(_) => PointedWrote(m, h, l, a, v);
    }
  }

  lemma {:induction false} CaseWrote(m: Mem, h: nat, l: Layout, a: nat, v: Datum)
    requires l.Cases? && Lower(m, h, l, a, v).Some?
    ensures var r := Lower(m, h, l, a, v).value; Wrote(m, h, r.0, r.1, a, a + Extent(l))
    decreases l, 1, 0
  {
    var w, part := TagWidth(|l.cases|), l.cases[v.index];
    var m1 := Store(m, a, w, v.index);
    StoreWrote(m, h, a, w, v.index);
    LowerWrote(m1, h, part, a + PayloadAt(l), v.payload);
    var r := Lower(m, h, l, a, v).value;
    LargestIs(l, v.index, |l.cases|);
    hide Wrote, Lower, Store;
    Widened(m, h, m1, h, a, a + w, a, a + Extent(l));
    WroteTwice(m, h, m1, h, r.0, r.1, a, a + Extent(l), a + PayloadAt(l), a + PayloadAt(l) + Extent(part));
  }

  lemma {:induction false} PointedWrote(m: Mem, h: nat, l: Layout, a: nat, v: Datum)
    requires l.Pointed? && Lower(m, h, l, a, v).Some?
    ensures var r := Lower(m, h, l, a, v).value; Wrote(m, h, r.0, r.1, a, a + Extent(l))
    decreases l, 1, 0
  {
    var elem, n := l.elem, |v.items|;
    var p := AlignUp(h, Align(elem));
    var end := ItemAt(elem, p, n);
    ItemsWrote(m, h, end, elem, p, v.items, n);
    var (m1, h1) := LowerItems(m, end, elem, p, v.items, n).value;
    var m2 := Store(m1, a, 4, p);
    StoreWrote(m1, h1, a, 4, p);
    StoreWrote(m2, h1, a + 4, 4, n);
    hide Wrote, Store, ItemAt, LowerItems;
    Widened(m, h, m1, h1, 0, 0, a, a + 8);
    WroteTwice(m, h, m1, h1, m2, h1, a, a + 8, a, a + 4);
    WroteTwice(m, h, m2, h1, Store(m2, a + 4, 4, n), h1, a, a + 8, a + 4, a + 8);
  }

  lemma Widened(m: Mem, h: nat, m': Mem, h': nat, from: nat, to: nat, x: nat, y: nat)
    requires Wrote(m, h, m', h', from, to) && (from < to ==> x <= from && to <= y)
    ensures Wrote(m, h, m', h', x, y)
  {
  }

  lemma {:induction false} PartsWrote(m: Mem, h: nat, l: Layout, a: nat, vs: seq<Datum>, k: nat)
    requires k <= |vs| == |Parts(l)| && LowerParts(m, h, l, a, vs, k).Some?
    ensures var r := LowerParts(m, h, l, a, vs, k).value; Wrote(m, h, r.0, r.1, a, a + ExtentOf(l, |vs|))
    decreases l, 1, k
  {
    hide Wrote, Lower, Size, Align, Extent;
    if k > 0 {
      PartsWrote(m, h, l, a, vs, k - 1);
      var (m1, h1) := LowerParts(m, h, l, a, vs, k - 1).value;
      var part, at := Parts(l)[k - 1], a + PartAt(l, k - 1);
      LowerWrote(m1, h1, part, at, vs[k - 1]);
      var (m2, h2) := Lower(m1, h1, part, at, vs[k - 1]).value;
      if Extent(part) > 0 {
        ExtentIs(l, k - 1, |vs|);
      }
      WroteTwice(m, h, m1, h1, m2, h2, a, a + ExtentOf(l, |vs|), at, at + Extent(part));
    } else {
      WroteNothing(m, h, a, a + ExtentOf(l, |vs|));
    }
  }

  lemma WroteNothing(m: Mem, h: nat, from: nat, to: nat)
    ensures Wrote(m, h, m, h, from, to)
  {
  }

  lemma BlockWrote(m: Mem, h: nat, end: nat)
    requires h <= end <= |m|
    ensures Wrote(m, h, m, end, 0, 0)
  {
  }

  lemma InBlock(m: Mem, h: nat, m1: Mem, h1: nat, r: (Mem, nat), from: nat, to: nat, end: nat)
    requires Wrote(m, h, m1, h1, 0, 0) && Wrote(m1, h1, r.0, r.1, from, to)
    requires h <= from && to <= end <= h1 && end <= |m|
    ensures Wrote(m, h, r.0, r.1, 0, 0) && end <= r.1
  {
  }

  /** A block and what its elements take beyond it count as one. */
  lemma {:induction false} ItemsWrote(m: Mem, h: nat, end: nat, e: Layout, p: nat, vs: seq<Datum>, k: nat)
    requires k <= |vs| && LowerItems(m, end, e, p, vs, k).Some?
    requires h <= p && ItemAt(e, p, |vs|) <= end <= |m|
    ensures var r := LowerItems(m, end, e, p, vs, k).value; Wrote(m, h, r.0, r.1, 0, 0) && end <= r.1
    decreases e, 3, k
  {
    hide Lower, ItemAt, Extent, Size, Wrote;
    if k == 0 {
      BlockWrote(m, h, end);
    } else {
      ItemsWrote(m, h, end, e, p, vs, k - 1);
      var (m1, h1) := LowerItems(m, end, e, p, vs, k - 1).value;
      LowerWrote(m1, h1, e, ItemAt(e, p, k - 1), vs[k - 1]);
      ExtentFits(e);
      ItemsApart(e, p, k - 1, |vs|);
      InBlock(m, h, m1, h1, LowerItems(m, end, e, p, vs, k).value, ItemAt(e, p, k - 1), ItemAt(e, p, k - 1) + Extent(e),
              end);
    }
  }

  // ---- Stored values lie where they were put --------------------------------------------------------------------

  /** A value's own bytes end below the allocator's mark, so that no block can fall on them. */
  predicate Clear(l: Layout, a: nat, h: nat) {
    Extent(l) == 0 || a + Extent(l) <= h
  }

  /** A value without elements: storing it takes blocks of no bytes, which leave an aligned allocator where it is. */
  predicate Bare(v: Datum) {
    match v
    case Bits(_) => true
    case Many(parts) => forall j :: 0 <= j < |parts| ==> Bare(parts[j])
    case Case(_, payload) => Bare(payload)
    case Items(items) => items == []
  }

  predicate Storable(l: Layout, a: nat, h: nat, v: Datum) {
    Clear(l, a, h) || (Bare(v) && h % 8 == 0)
  }

  /** Storing a value leaves it where it was put, if no block can fall on it. */
  lemma {:induction false} LowerHolds(m: Mem, h: nat, l: Layout, a: nat, v: Datum)
    requires Lower(m, h, l, a, v).Some? && h <= |m| && Storable(l, a, h, v)
    ensures var r := Lower(m, h, l, a, v).value;
            Holds(r.0, h, r.1, l, a, v) && h <= r.1 <= |m| && (Bare(v) && h % 8 == 0 ==> r.1 == h)
    decreases l, 2, 0
  {
    hide Lower, Holds, Storable, Bare;
    match l {
      case Prim(_, _) => PrimHolds(m, h, l, a, v);
      case Fields(_) => FieldsHold(m, h, l, a, v);
      case Cases(_) => CaseHolds(m, h, l, a, v);
      case Pointed(_) => PointedHolds(m, h, l, a, v);
    }
  }

  lemma PrimHolds(m: Mem, h: nat, l: Layout, a: nat, v: Datum)
    requires l.Prim? && Lower(m, h, l, a, v).Some?
    ensures var r := Lower(m, h, l, a, v).value; r.1 == h && Holds(r.0, h, h, l, a, v)
  {
    hide Load, Store;
    LoadStored(m, a, l.width, v.n);
  }

  lemma {:induction false} FieldsHold(m: Mem, h: nat, l: Layout, a: nat, v: Datum)
    requires l.Fields? && Lower(m, h, l, a, v).Some? && h <= |m| && Storable(l, a, h, v)
    ensures var r := Lower(m, h, l, a, v).value;
            Holds(r.0, h, r.1, l, a, v) && h <= r.1 <= |m| && (Bare(v) && h % 8 == 0 ==> r.1 == h)
    decreases l, 1, |l.fields| + 1
  {
    hide LowerParts, Storable, Bare, PartAt;
    PartsHold(m, h, l, a, v, |l.fields|);
  }

  lemma {:induction false} PartsHold(m: Mem, h: nat, l: Layout, a: nat, v: Datum, k: nat)
    requires l.Fields? && v.Many? && |v.parts| == |l.fields| && k <= |l.fields| && h <= |m|
    requires LowerParts(m, h, l, a, v.parts, k).Some? && Storable(l, a, h, v)
    ensures var r := LowerParts(m, h, l, a, v.parts, k).value;
            && (forall j :: 0 <= j < k ==> Holds(r.0, h, r.1, l.fields[j], a + PartAt(l, j), v.parts[j]))
            && h <= r.1 <= |m| && (Bare(v) && h % 8 == 0 ==> r.1 == h)
    decreases l, 1, k
  {
    hide Holds, Wrote, Lower, Extent, Size, PartAt, Bare;
    if k > 0 {
      PartsHold(m, h, l, a, v, k - 1);
      var r1 := LowerParts(m, h, l, a, v.parts, k - 1).value;
      var part, at := l.fields[k - 1], a + PartAt(l, k - 1);
      PartStorable(l, a, h, r1.1, v, k - 1);
      LowerHolds(r1.0, r1.1, part, at, v.parts[k - 1]);
      LowerWrote(r1.0, r1.1, part, at, v.parts[k - 1]);
      var r2 := Lower(r1.0, r1.1, part, at, v.parts[k - 1]).value;
      PartJoins(l, a, h, v, k - 1, r1.0, r1.1, r2.0, r2.1);
    }
  }

  lemma PartJoins(l: Layout, a: nat, h: nat, v: Datum, k: nat, m1: Mem, h1: nat, m2: Mem, h2: nat)
    requires l.Fields? && v.Many? && |v.parts| == |l.fields| && k < |l.fields| && Storable(l, a, h, v)
    requires h <= h1 <= h2 <= |m2| && (Bare(v) && h % 8 == 0 ==> h1 == h && h2 == h)
    requires forall j :: 0 <= j < k ==> Holds(m1, h, h1, l.fields[j], a + PartAt(l, j), v.parts[j])
    requires Holds(m2, h1, h2, l.fields[k], a + PartAt(l, k), v.parts[k])
    requires Wrote(m1, h1, m2, h2, a + PartAt(l, k), a + PartAt(l, k) + Extent(l.fields[k]))
    ensures forall j :: 0 <= j <= k ==> Holds(m2, h, h2, l.fields[j], a + PartAt(l, j), v.parts[j])
  {
    hide Holds, Extent, Size, PartAt, Bare;
    assert |m1| == |m2|;
    forall j | 0 <= j <= k
      ensures Holds(m2, h, h2, l.fields[j], a + PartAt(l, j), v.parts[j])
    {
      if j < k {
        EarlierPart(l, a, h, h1, v, j, k, m1, m2, h2);
        hide Wrote;
        HoldsKept(m1, m2, h, h1, h, h2, l.fields[j], a + PartAt(l, j), v.parts[j]);
      } else {
        HoldsKept(m2, m2, h1, h2, h, h2, l.fields[k], a + PartAt(l, k), v.parts[k]);
      }
    }
  }

  lemma PartStorable(l: Layout, a: nat, h: nat, h1: nat, v: Datum, j: nat)
    requires l.Fields? && v.Many? && |v.parts| == |l.fields| && j < |l.fields| && Storable(l, a, h, v) && h <= h1
    requires Bare(v) && h % 8 == 0 ==> h1 == h
    ensures Storable(l.fields[j], a + PartAt(l, j), h1, v.parts[j]) && (Bare(v) ==> Bare(v.parts[j]))
  {
    hide Size, PartAt;
    if Extent(l.fields[j]) > 0 {
      ExtentIs(l, j, |l.fields|);
    }
  }

  /** Storing a later part leaves an earlier one and its blocks alone. */
  lemma EarlierPart(l: Layout, a: nat, h: nat, h1: nat, v: Datum, i: nat, j: nat, m: Mem, m': Mem, h2: nat)
    requires l.Fields? && i < j < |l.fields| && Storable(l, a, h, v) && h <= h1
    requires Wrote(m, h1, m', h2, a + PartAt(l, j), a + PartAt(l, j) + Extent(l.fields[j]))
    requires Bare(v) && h % 8 == 0 ==> h1 == h && h2 == h
    ensures Agree(m, m', a + PartAt(l, i), a + PartAt(l, i) + Extent(l.fields[i])) && Agree(m, m', h, h1)
  {
    hide Bare, Size, Extent, PartAt, Wrote, Agree;
    PartsApart(l, i, j);
    FieldsExtent(l);
    if Extent(l.fields[i]) > 0 {
      ExtentIs(l, i, |l.fields|);
    }
    if Extent(l.fields[j]) > 0 {
      ExtentIs(l, j, |l.fields|);
    }
    var at, from := a + PartAt(l, i), a + PartAt(l, j);
    Outside(m, h1, m', h2, from, from + Extent(l.fields[j]), at, at + Extent(l.fields[i]));
    Outside(m, h1, m', h2, from, from + Extent(l.fields[j]), h, h1);
  }

  lemma PartsApart(l: Layout, i: nat, j: nat)
    requires l.Fields? && i < j < |l.fields|
    ensures PartAt(l, i) + Extent(l.fields[i]) <= PartAt(l, j)
  {
    hide Extent, Align;
    EndsGrow(l, i, j);
    ExtentFits(l.fields[i]);
  }

  lemma Outside(m: Mem, h: nat, m': Mem, h': nat, from: nat, to: nat, x: nat, y: nat)
    requires Wrote(m, h, m', h', from, to)
    requires x >= y || h == h' || y <= h
    requires x >= y || from >= to || y <= from || to <= x
    ensures Agree(m, m', x, y)
  {
  }

  lemma FieldsExtent(l: Layout)
    requires l.Fields?
    ensures Extent(l) == ExtentOf(l, |l.fields|)
  {
  }

  lemma {:induction false} CaseHolds(m: Mem, h: nat, l: Layout, a: nat, v: Datum)
    requires l.Cases? && Lower(m, h, l, a, v).Some? && h <= |m| && Storable(l, a, h, v)
    ensures var r := Lower(m, h, l, a, v).value;
            Holds(r.0, h, r.1, l, a, v) && h <= r.1 <= |m| && (Bare(v) && h % 8 == 0 ==> r.1 == h)
    decreases l, 1, 0
  {
    hide Load, Store, Holds, Wrote, Size, Pow256;
    var w, part := TagWidth(|l.cases|), l.cases[v.index];
    var m1 := Store(m, a, w, v.index);
    TagFits(|l.cases|, v.index);
    LoadStored(m, a, w, v.index);
    PayloadStorable(l, a, h, v);
    LowerHolds(m1, h, part, a + PayloadAt(l), v.payload);
    LowerWrote(m1, h, part, a + PayloadAt(l), v.payload);
    var r := Lower(m, h, l, a, v).value;
    assert r == Lower(m1, h, part, a + PayloadAt(l), v.payload).value;
    TagKept(l, a, h, v, m1, r.0, r.1);
    HoldsCase(r.0, h, r.1, l, a, v);
  }

  lemma PayloadStorable(l: Layout, a: nat, h: nat, v: Datum)
    requires l.Cases? && v.Case? && v.index < |l.cases| && Storable(l, a, h, v)
    ensures Storable(l.cases[v.index], a + PayloadAt(l), h, v.payload) && (Bare(v) <==> Bare(v.payload))
  {
    hide Size, PayloadAt;
    LargestIs(l, v.index, |l.cases|);
  }

  lemma TagKept(l: Layout, a: nat, h: nat, v: Datum, m1: Mem, m2: Mem, h2: nat)
    requires l.Cases? && v.Case? && v.index < |l.cases| && Storable(l, a, h, v) && a + TagWidth(|l.cases|) <= |m1|
    requires var at := a + PayloadAt(l); Wrote(m1, h, m2, h2, at, at + Extent(l.cases[v.index]))
    requires Bare(v) && h % 8 == 0 ==> h2 == h
    ensures Load(m2, a, TagWidth(|l.cases|)) == Load(m1, a, TagWidth(|l.cases|))
  {
    hide Load, Bare;
    LoadAgrees(m1, m2, a, TagWidth(|l.cases|));
  }

  lemma HoldsCase(m: Mem, lo: nat, hi: nat, l: Layout, a: nat, v: Datum)
    requires l.Cases? && v.Case? && v.index < |l.cases| && a + TagWidth(|l.cases|) <= |m|
    requires Load(m, a, TagWidth(|l.cases|)) == v.index
    requires Holds(m, lo, hi, l.cases[v.index], a + PayloadAt(l), v.payload)
    ensures Holds(m, lo, hi, l, a, v)
  {
    hide Load, PayloadAt;
  }

  lemma TagFits(n: nat, k: nat)
    requires k < n < T32
    ensures k < Pow256(TagWidth(n))
  {
    Powers();
    assert Pow256(2) == 256 * Pow256(1);
  }

  lemma {:induction false} PointedHolds(m: Mem, h: nat, l: Layout, a: nat, v: Datum)
    requires l.Pointed? && Lower(m, h, l, a, v).Some? && h <= |m| && Storable(l, a, h, v)
    ensures var r := Lower(m, h, l, a, v).value;
            Holds(r.0, h, r.1, l, a, v) && h <= r.1 <= |m| && (Bare(v) && h % 8 == 0 ==> r.1 == h)
    decreases l, 1, 0
  {
    hide Load, Store, Pow256, Holds, Wrote, ItemAt, Extent, Size, LowerItems;
    Powers();
    var elem, n := l.elem, |v.items|;
    var p := AlignUp(h, Align(elem));
    AlignedUp(h, Align(elem));
    ItemsHold(m, h, ItemAt(elem, p, n), elem, p, v.items, n);
    ItemsWrote(m, h, ItemAt(elem, p, n), elem, p, v.items, n);
    var r1 := LowerItems(m, ItemAt(elem, p, n), elem, p, v.items, n).value;
    var m2 := Store(r1.0, a, 4, p);
    LoadStored(r1.0, a, 4, p);
    LoadStored(m2, a + 4, 4, n);
    StoreWrote(r1.0, r1.1, a, 4, p);
    StoreWrote(m2, r1.1, a + 4, 4, n);
    AddressKept(r1.1, m2, Store(m2, a + 4, 4, n), a);
    PointedExtent(l);
    assert a + 8 <= h || v.items == [];
    WroteTwice(r1.0, r1.1, m2, r1.1, Store(m2, a + 4, 4, n), r1.1, a, a + 8, a + 4, a + 8) by {
      Widened(r1.0, r1.1, m2, r1.1, a, a + 4, a, a + 8);
    }
    HoldsItems(r1.0, Store(m2, a + 4, 4, n), h, ItemAt(elem, p, n), r1.1, l, a, v, p);
    if n == 0 {
      NoItems(m, elem, p, v.items);
    }
  }

  lemma NoItems(m: Mem, e: Layout, p: nat, vs: seq<Datum>)
    requires vs == []
    ensures ItemAt(e, p, 0) == p && LowerItems(m, p, e, p, vs, 0) == Some((m, p))
  {
  }

  lemma PointedExtent(l: Layout)
    requires l.Pointed?
    ensures Extent(l) == 8
  {
  }

  lemma AddressKept(h: nat, m: Mem, m': Mem, a: nat)
    requires Wrote(m, h, m', h, a + 4, a + 8) && a + 8 <= |m|
    ensures W32(m', a) == W32(m, a)
  {
    hide Load;
    LoadAgrees(m, m', a, 4);
  }

  /** Elements in a block, once the block's address and count are stored elsewhere. */
  lemma HoldsItems(m: Mem, m': Mem, lo: nat, end: nat, hi: nat, l: Layout, a: nat, v: Datum,
                   p: nat)
    requires l.Pointed? && v.Items? && a + 8 <= |m| && Wrote(m, hi, m', hi, a, a + 8) && lo <= p && hi <= |m|
    requires W32(m', a) == p && W32(m', a + 4) == |v.items|
    requires Aligned(p, Align(l.elem)) && ItemAt(l.elem, p, |v.items|) <= end <= hi
    requires a + 8 <= lo || v.items == []
    requires forall i :: 0 <= i < |v.items| ==> Holds(m, end, hi, l.elem, ItemAt(l.elem, p, i), v.items[i])
    ensures Holds(m', lo, hi, l, a, v)
  {
    hide Load;
    var elem, n := l.elem, |v.items|;
    ExtentFits(elem);
    forall i | 0 <= i < n
      ensures Holds(m', lo, hi, elem, ItemAt(elem, p, i), v.items[i])
    {
      ItemsApart(elem, p, i, n);
      hide ItemAt, Holds, Size, Extent;
      HoldsKept(m, m', end, hi, lo, hi, elem, ItemAt(elem, p, i), v.items[i]);
    }
  }

  lemma AlignedUp(h: nat, align: Width)
    ensures Aligned(AlignUp(h, align), align) && (h % 8 == 0 ==> AlignUp(h, align) == h)
  {
  }

  lemma {:induction false} ItemsHold(m: Mem, h: nat, end: nat, e: Layout, p: nat, vs: seq<Datum>, k: nat)
    requires k <= |vs| && LowerItems(m, end, e, p, vs, k).Some?
    requires h <= p && ItemAt(e, p, |vs|) <= end <= |m|
    ensures var r := LowerItems(m, end, e, p, vs, k).value;
            && (forall i :: 0 <= i < k ==> Holds(r.0, end, r.1, e, ItemAt(e, p, i), vs[i]))
            && end <= r.1 <= |m|
    decreases e, 3, k
  {
    hide Holds, Wrote, Lower, Extent, Size, ItemAt, Bare;
    if k > 0 {
      ItemsHold(m, h, end, e, p, vs, k - 1);
      var r1 := LowerItems(m, end, e, p, vs, k - 1).value;
      var at := ItemAt(e, p, k - 1);
      ItemsApart(e, p, k - 1, |vs|);
      ExtentFits(e);
      LowerHolds(r1.0, r1.1, e, at, vs[k - 1]);
      LowerWrote(r1.0, r1.1, e, at, vs[k - 1]);
      var r2 := Lower(r1.0, r1.1, e, at, vs[k - 1]).value;
      ItemJoins(e, p, end, vs, k - 1, r1.0, r1.1, r2.0, r2.1);
    }
  }

  lemma ItemJoins(e: Layout, p: nat, end: nat, vs: seq<Datum>, k: nat, m1: Mem, h1: nat, m2: Mem, h2: nat)
    requires k < |vs| && ItemAt(e, p, |vs|) <= end <= h1 <= h2 <= |m2|
    requires forall i :: 0 <= i < k ==> Holds(m1, end, h1, e, ItemAt(e, p, i), vs[i])
    requires Holds(m2, h1, h2, e, ItemAt(e, p, k), vs[k])
    requires Wrote(m1, h1, m2, h2, ItemAt(e, p, k), ItemAt(e, p, k) + Extent(e))
    ensures forall i :: 0 <= i <= k ==> Holds(m2, end, h2, e, ItemAt(e, p, i), vs[i])
  {
    hide Holds, Extent, Size, ItemAt;
    assert |m1| == |m2|;
    ExtentFits(e);
    ItemsApart(e, p, k, |vs|);
    forall i | 0 <= i <= k
      ensures Holds(m2, end, h2, e, ItemAt(e, p, i), vs[i])
    {
      if i < k {
        ItemsApart(e, p, i, k);
        var at := ItemAt(e, p, i);
        assert Agree(m1, m2, at, at + Extent(e));
        HoldsKept(m1, m2, end, h1, end, h2, e, at, vs[i]);
      } else {
        HoldsKept(m2, m2, h1, h2, end, h2, e, ItemAt(e, p, k), vs[k]);
      }
    }
  }

  // ---- A value that shows where its type ends ---------------------------------------------------------------------

  /** Every choice has cases. */
  predicate Formed(l: Layout) {
    match l
    case Prim(_, _) => true
    case Fields(fields) => forall j :: 0 <= j < |fields| ==> Formed(fields[j])
    case Cases(cases) => 0 < |cases| < T32 && forall j :: 0 <= j < |cases| ==> Formed(cases[j])
    case Pointed(elem) => Formed(elem)
  }

  /** A case whose payload reaches as far as any. */
  function DeepestCase(l: Layout, k: nat): (j: nat)
    requires 0 < k <= |Parts(l)|
    ensures j < k && Extent(Parts(l)[j]) == Deepest(l, k)
  {
    if k == 1 || Extent(Parts(l)[k - 1]) > Deepest(l, k - 1) then k - 1 else DeepestCase(l, k - 1)
  }

  /** A value without elements whose last byte is the last its type has. */
  function Probe(l: Layout): (v: Datum)
    requires Formed(l)
    ensures Bare(v)
    decreases l
  {
    match l
    case Prim(_, _) => Bits(0)
    case Fields(fields) => Many(seq(|fields|, j requires 0 <= j < |fields| => Probe(fields[j])))
    case Cases(cases) => var k := DeepestCase(l, |cases|); Case(k, Probe(cases[k]))
    case Pointed(_) => Items([])
  }

  /** There is always room for it where there is room for its type. */
  lemma {:induction false} ProbeLowers(m: Mem, h: nat, l: Layout, a: nat)
    requires Formed(l) && h % 8 == 0 && h <= |m| < T32 && a + Size(l) <= |m|
    ensures Lower(m, h, l, a, Probe(l)).Some?
    decreases l, 1, 0
  {
    hide Store, Size, Extent, PayloadAt, LowerParts;
    match l {
      case Prim(_, width) => ProbePrimLowers(m, h, l, a);
      case Fields(fields) => ProbePartsLower(m, h, l, a, |fields|);
      case Cases(_) => ProbeCaseLowers(m, h, l, a);
      case Pointed(_) => ProbeListLowers(m, h, l, a);
    }
  }

  lemma ProbePrimLowers(m: Mem, h: nat, l: Layout, a: nat)
    requires l.Prim? && a + Size(l) <= |m|
    ensures Lower(m, h, l, a, Probe(l)).Some?
  {
    assert Pow256(l.width) > 0;
  }

  lemma ProbeListLowers(m: Mem, h: nat, l: Layout, a: nat)
    requires l.Pointed? && Formed(l) && h % 8 == 0 && h <= |m| < T32 && a + Size(l) <= |m|
    ensures Lower(m, h, l, a, Probe(l)).Some?
  {
    hide Store;
    AlignedUp(h, Align(l.elem));
  }

  lemma {:induction false} ProbeCaseLowers(m: Mem, h: nat, l: Layout, a: nat)
    requires l.Cases? && Formed(l) && h % 8 == 0 && h <= |m| < T32 && a + Size(l) <= |m|
    ensures Lower(m, h, l, a, Probe(l)).Some?
    decreases l, 0, 0
  {
    hide Store, Extent, Align, Widest;
    var k, w := DeepestCase(l, |l.cases|), TagWidth(|l.cases|);
    LargestIs(l, k, |l.cases|);
    ProbeLowers(Store(m, a, w, k), h, l.cases[k], a + PayloadAt(l));
  }

  lemma PartFits(l: Layout, j: nat)
    requires l.Fields? && j < |l.fields|
    ensures PartAt(l, j) + Size(l.fields[j]) <= Size(l)
  {
    EndsGrow(l, j, |l.fields|);
  }

  lemma {:induction false} ProbePartsLower(m: Mem, h: nat, l: Layout, a: nat, k: nat)
    requires l.Fields? && Formed(l) && h % 8 == 0 && h <= |m| < T32 && a + Size(l) <= |m| && k <= |l.fields|
    ensures var r := LowerParts(m, h, l, a, Probe(l).parts, k); r.Some? && r.value.1 == h
    decreases l, 0, k
  {
    hide Holds, Lower, Size, Extent, PartAt;
    if k > 0 {
      ProbePartsLower(m, h, l, a, k - 1);
      var r := LowerParts(m, h, l, a, Probe(l).parts, k - 1).value;
      PartFits(l, k - 1);
      ProbeLowers(r.0, h, l.fields[k - 1], a + PartAt(l, k - 1));
      LowerHolds(r.0, h, l.fields[k - 1], a + PartAt(l, k - 1), Probe(l.fields[k - 1]));
    }
  }

  /** Two memories in which it is found agree on its last byte. */
  lemma {:induction false} ProbeTells(m: Mem, m': Mem, l: Layout, a: nat)
    requires Formed(l) && Extent(l) > 0 && Lift(m, l, a) == Some(Probe(l)) == Lift(m', l, a)
    ensures a + Extent(l) <= |m| && a + Extent(l) <= |m'| && m[a + Extent(l) - 1] == m'[a + Extent(l) - 1]
    decreases l, 1, 0
  {
    hide Lift, Probe, Formed, Extent;
    match l {
      case Prim(_, _) => ProbePrimTells(m, m', l, a);
      case Fields(_) =>
        FieldsExtent(l);
        ProbePartsTell(m, m', l, a, |l.fields|);
      case Cases(_) => ProbeCaseTells(m, m', l, a);
      case Pointed(_) => ProbeListTells(m, m', l, a);
    }
  }

  lemma ProbePrimTells(m: Mem, m': Mem, l: Layout, a: nat)
    requires l.Prim? && Lift(m, l, a) == Some(Probe(l)) == Lift(m', l, a)
    ensures a + Extent(l) <= |m| && a + Extent(l) <= |m'| && m[a + Extent(l) - 1] == m'[a + Extent(l) - 1]
  {
    hide Load;
    LastByte(m, m', a, l.width);
  }

  lemma ProbeListTells(m: Mem, m': Mem, l: Layout, a: nat)
    requires l.Pointed? && Formed(l) && Lift(m, l, a) == Some(Probe(l)) == Lift(m', l, a)
    ensures a + Extent(l) <= |m| && a + Extent(l) <= |m'| && m[a + Extent(l) - 1] == m'[a + Extent(l) - 1]
  {
    hide Load;
    LastByte(m, m', a + 4, 4);
  }

  lemma {:induction false} ProbeCaseTells(m: Mem, m': Mem, l: Layout, a: nat)
    requires l.Cases? && Formed(l) && Lift(m, l, a) == Some(Probe(l)) == Lift(m', l, a)
    ensures a + Extent(l) <= |m| && a + Extent(l) <= |m'| && m[a + Extent(l) - 1] == m'[a + Extent(l) - 1]
    decreases l, 0, 0
  {
    hide Load, PayloadAt, Widest, Align;
    var k, w := DeepestCase(l, |l.cases|), TagWidth(|l.cases|);
    if Extent(l.cases[k]) > 0 {
      assert a + PayloadAt(l) + Extent(l.cases[k]) >= a + w by { PayloadAfterTag(l); }
      ProbeTells(m, m', l.cases[k], a + PayloadAt(l));
    } else {
      LastByte(m, m', a, w);
    }
  }

  lemma PayloadAfterTag(l: Layout)
    requires l.Cases?
    ensures TagWidth(|l.cases|) <= PayloadAt(l)
  {
  }

  lemma PartLifted(m: Mem, l: Layout, a: nat, j: nat)
    requires l.Fields? && Formed(l) && Lift(m, l, a) == Some(Probe(l)) && j < |l.fields|
    ensures Lift(m, l.fields[j], a + PartAt(l, j)) == Some(Probe(l.fields[j]))
  {
    hide Load, PartAt, Extent, Size;
    assert Lift(m, l, a).value.parts[j] == Probe(l).parts[j];
  }

  lemma {:induction false} ProbePartsTell(m: Mem, m': Mem, l: Layout, a: nat, k: nat)
    requires l.Fields? && Formed(l) && Lift(m, l, a) == Some(Probe(l)) == Lift(m', l, a)
    requires k <= |l.fields| && ExtentOf(l, k) > 0
    ensures a + ExtentOf(l, k) <= |m| && a + ExtentOf(l, k) <= |m'|
    ensures m[a + ExtentOf(l, k) - 1] == m'[a + ExtentOf(l, k) - 1]
    decreases l, 0, k
  {
    hide Lift, Probe, Load, PartAt;
    var part, at := l.fields[k - 1], a + PartAt(l, k - 1);
    PartLifted(m, l, a, k - 1);
    PartLifted(m', l, a, k - 1);
    if Extent(part) == 0 {
      ProbePartsTell(m, m', l, a, k - 1);
    } else {
      ProbeTells(m, m', part, at);
    }
  }

  lemma LastByte(m: Mem, m': Mem, a: nat, n: nat)
    requires n > 0 && a + n <= |m| && a + n <= |m'| && Load(m, a, n) == Load(m', a, n)
    ensures m[a + n - 1] == m'[a + n - 1]
  {
    SameBytes(m[a..a + n], m'[a..a + n]);
    assert m[a..a + n][n - 1] == m'[a..a + n][n - 1];
  }

  lemma {:induction false} SameBytes(s: seq<Byte>, t: seq<Byte>)
    requires |s| == |t| && FromLE(s) == FromLE(t)
    ensures s == t
  {
    if s != [] {
      assert s[0] == FromLE(s) % 256 == FromLE(t) % 256 == t[0];
      SameBytes(s[1..], t[1..]);
      assert s == [s[0]] + s[1..] && t == [t[0]] + t[1..];
    }
  }
}
