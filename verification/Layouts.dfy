/**
 * How the canonical ABI lays a type out, as core values and in memory (Canonical ABI of the Component Model, sections
 * "Flattening", "Alignment" and "Element Size").
 */
module Layouts {
  import opened Memory

  /** Core wasm value types. */
  datatype WT = I32 | I64 | F32 | F64 {
    function Size(): nat {
      if I64? || F64? then 8 else 4
    }
  }

  // ---- Alignment ----------------------------------------------------------------------------------------------

  /** The canonical ABI only ever asks for these alignments. */
  predicate Alignment(align: nat) {
    align == 1 || align == 2 || align == 4 || align == 8
  }

  type Width = n: nat | Alignment(n) witness 1

  function UpTo2(x: nat): (r: nat)
    ensures x <= r < x + 2 && r % 2 == 0
  {
    (x + 1) / 2 * 2
  }

  function UpTo4(x: nat): (r: nat)
    ensures x <= r < x + 4 && r % 4 == 0
  {
    (x + 3) / 4 * 4
  }

  function UpTo8(x: nat): (r: nat)
    ensures x <= r < x + 8 && r % 8 == 0
  {
    (x + 7) / 8 * 8
  }

  function AlignUp(x: nat, align: nat): (r: nat)
    requires Alignment(align)
    ensures x <= r < x + align && r % align == 0
  {
    if align == 1 then x
    else if align == 2 then UpTo2(x)
    else if align == 4 then UpTo4(x)
    else UpTo8(x)
  }

  function Wider(a: Width, b: Width): (r: Width)
    ensures a <= r && b <= r && (r == a || r == b)
  {
    if a < b then b else a
  }

  function Max(a: nat, b: nat): nat {
    if a < b then b else a
  }

  // ---- Layouts ------------------------------------------------------------------------------------------------

  /**
   * What is left of a type once names are dropped: a number of `width` bytes, parts one after another, one of several
   * cases behind a discriminant, or an address and a count of elements elsewhere.
   */
  datatype Layout =
    | Prim(core: WT, width: Width)
    | Fields(fields: seq<Layout>)
    | Cases(cases: seq<Layout>)
    | Pointed(elem: Layout)

  /** The bytes of the discriminant of `n` cases. */
  function TagWidth(n: nat): Width {
    if n <= 0x100 then 1 else if n <= 0x1_0000 then 2 else 4
  }

  function Align(l: Layout): Width
    decreases l, 1
  {
    match l
    case Prim(_, width) => width
    case Fields(fields) => Widest(l, |fields|)
    case Cases(cases) => Wider(TagWidth(|cases|), Widest(l, |cases|))
    case Pointed(_) => 4
  }

  function Parts(l: Layout): seq<Layout> {
    match l
    case Fields(fields) => fields
    case Cases(cases) => cases
    case _ => []
  }

  /** The widest alignment of the first `k` parts. */
  function Widest(l: Layout, k: nat): Width
    requires k <= |Parts(l)|
    decreases l, 0, k
  {
    if k == 0 then 1 else Wider(Widest(l, k - 1), Align(Parts(l)[k - 1]))
  }

  function Size(l: Layout): nat
    decreases l, 2
  {
    match l
    case Prim(_, width) => width
    case Fields(fields) => AlignUp(EndOf(l, |fields|), Align(l))
    case Cases(cases) => AlignUp(PayloadAt(l) + Largest(l, |cases|), Align(l))
    case Pointed(_) => 8
  }

  /** Where the first `k` parts end if each follows the one before it at its own alignment. */
  function EndOf(l: Layout, k: nat): nat
    requires k <= |Parts(l)|
    decreases l, 0, 2 * k
  {
    if k == 0 then 0 else PartAt(l, k - 1) + Size(Parts(l)[k - 1])
  }

  function PartAt(l: Layout, k: nat): nat
    requires k < |Parts(l)|
    decreases l, 0, 2 * k + 1
  {
    AlignUp(EndOf(l, k), Align(Parts(l)[k]))
  }

  function Largest(l: Layout, k: nat): nat
    requires k <= |Parts(l)|
    decreases l, 0, k
  {
    if k == 0 then 0 else Max(Largest(l, k - 1), Size(Parts(l)[k - 1]))
  }

  /** Every case's payload starts here. */
  function PayloadAt(l: Layout): nat
    requires l.Cases?
  {
    AlignUp(TagWidth(|l.cases|), Widest(l, |l.cases|))
  }

  /** The end of what values of the type may write, without the padding behind it. */
  function Extent(l: Layout): nat
    decreases l, 2
  {
    match l
    case Prim(_, width) => width
    case Fields(fields) => ExtentOf(l, |fields|)
    case Cases(cases) =>
      Max(TagWidth(|cases|), if Deepest(l, |cases|) == 0 then 0 else PayloadAt(l) + Deepest(l, |cases|))
    case Pointed(_) => 8
  }

  function ExtentOf(l: Layout, k: nat): nat
    requires k <= |Parts(l)|
    decreases l, 0, k
  {
    if k == 0 then 0
    else if Extent(Parts(l)[k - 1]) == 0 then ExtentOf(l, k - 1)
    else PartAt(l, k - 1) + Extent(Parts(l)[k - 1])
  }

  function Deepest(l: Layout, k: nat): nat
    requires k <= |Parts(l)|
    decreases l, 0, k
  {
    if k == 0 then 0 else Max(Deepest(l, k - 1), Extent(Parts(l)[k - 1]))
  }

  // ---- Core values --------------------------------------------------------------------------------------------

  /** One core value for either of two. */
  function Join(a: WT, b: WT): WT {
    if a == b then a else if (a.I32? && b.F32?) || (a.F32? && b.I32?) then I32 else I64
  }

  function JoinAll(a: seq<WT>, b: seq<WT>): seq<WT> {
    if a == [] then b else if b == [] then a else [Join(a[0], b[0])] + JoinAll(a[1..], b[1..])
  }

  function Flats(l: Layout): seq<WT>
    decreases l, 1
  {
    match l
    case Prim(core, _) => [core]
    case Fields(fields) => FlatsOf(l, |fields|)
    case Cases(cases) => [I32] + JoinedFlats(l, |cases|)
    case Pointed(_) => [I32, I32]
  }

  function FlatsOf(l: Layout, k: nat): seq<WT>
    requires k <= |Parts(l)|
    decreases l, 0, k
  {
    if k == 0 then [] else FlatsOf(l, k - 1) + Flats(Parts(l)[k - 1])
  }

  function JoinedFlats(l: Layout, k: nat): seq<WT>
    requires k <= |Parts(l)|
    decreases l, 0, k
  {
    if k == 0 then [] else JoinAll(JoinedFlats(l, k - 1), Flats(Parts(l)[k - 1]))
  }

  // ---- Facts --------------------------------------------------------------------------------------------------

  lemma {:induction false} EndsGrow(l: Layout, j: nat, k: nat)
    requires j < k <= |Parts(l)|
    ensures PartAt(l, j) + Size(Parts(l)[j]) == EndOf(l, j + 1) <= EndOf(l, k)
    decreases k
  {
    if j < k - 1 {
      EndsGrow(l, j, k - 1);
    }
  }

  lemma {:induction false} LargestIs(l: Layout, j: nat, k: nat)
    requires j < k <= |Parts(l)|
    ensures Size(Parts(l)[j]) <= Largest(l, k) && Extent(Parts(l)[j]) <= Deepest(l, k)
    decreases k
  {
    if j < k - 1 {
      LargestIs(l, j, k - 1);
    }
  }

  /** No value writes past its type's size. */
  lemma {:induction false} ExtentFits(l: Layout)
    ensures Extent(l) <= Size(l)
    decreases l, 1
  {
    match l {
      case Fields(fields) => ExtentsFit(l, |fields|);
      case Cases(cases) => ExtentsFit(l, |cases|);
      case _ =>
    }
  }

  lemma {:induction false} ExtentsFit(l: Layout, k: nat)
    requires k <= |Parts(l)|
    ensures ExtentOf(l, k) <= EndOf(l, k) && Deepest(l, k) <= Largest(l, k)
    decreases l, 0, k
  {
    if k > 0 {
      ExtentsFit(l, k - 1);
      ExtentFits(Parts(l)[k - 1]);
    }
  }

  /** Each part writes inside the whole, and after the parts before it. */
  lemma {:induction false} ExtentIs(l: Layout, j: nat, k: nat)
    requires j < k <= |Parts(l)| && Extent(Parts(l)[j]) > 0
    ensures PartAt(l, j) + Extent(Parts(l)[j]) <= ExtentOf(l, k)
    decreases k
  {
    if j < k - 1 {
      ExtentIs(l, j, k - 1);
      EndsGrow(l, j, k - 1);
      ExtentsFit(l, k - 1);
      ExtentBelow(l, k - 1);
    }
  }

  lemma {:induction false} ExtentBelow(l: Layout, k: nat)
    requires k < |Parts(l)|
    ensures ExtentOf(l, k) <= PartAt(l, k)
  {
    ExtentsFit(l, k);
  }
}
