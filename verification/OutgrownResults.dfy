/** Results that outgrow the area they are given: which of them are lost, and which are saved by chance. */
module OutgrownResults {
  import opened Wrappers
  import opened Memory
  import opened CanonicalAbi
  import opened Layouts
  import opened Signature
  import opened HostReplies
  import opened InterceptorArea
  import opened InterceptorEntry
  import opened InterceptorResults
  import opened InterceptorWitness

  const NESTED := Id(TypeDef(None, OptionOf(Id(TypeDef(None, OptionOf(U64))))))

  /** Sixteen bytes by core values, twenty-four in memory. */
  lemma NestedLayout()
    ensures Flatten(NESTED) == [I32, I32, I64] && RetSize(Flatten(NESTED)) == 16
    ensures Extent(LayoutOf(NESTED)) == 24 == Size(LayoutOf(NESTED)) && Formed(LayoutOf(NESTED))
  {
    hide Flats, Extent, Size, Align, LayoutOf, AreaEnd, RetSize, Formed, JoinedFlats, Widest, Largest, Deepest;
    NestedIs();
    NumberLayout();
    OptionLayout(Prim(I64, 8));
    OptionLayout(Cases([EMPTY, Prim(I64, 8)]));
    assert [I32] + ([I32] + [I64]) == [I32, I32, I64];
    assert AlignUp(1, 8) == 8 && AlignUp(16, 8) == 16 && AlignUp(24, 8) == 24;
    ThreeFlats();
  }

  lemma NumberLayout()
    ensures var number := Prim(I64, 8);
            && Flats(number) == [I64] && Extent(number) == 8 == Size(number) == Align(number)
            && Formed(Cases([EMPTY, Cases([EMPTY, number])]))
  {
    var number := Prim(I64, 8);
    assert Formed(EMPTY) && Formed(number) && Formed(Cases([EMPTY, number]));
  }

  lemma ThreeFlats()
    ensures RetSize([I32, I32, I64]) == 16
  {
    var flats := [I32, I32, I64];
    assert AreaEnd(flats, 1) == 4 && AreaEnd(flats, 2) == 8 && AreaEnd(flats, 3) == 16;
  }

  lemma NestedIs()
    ensures LayoutOf(NESTED) == Cases([EMPTY, Cases([EMPTY, Prim(I64, 8)])])
  {
    assert LayoutOf(Id(TypeDef(None, OptionOf(U64)))) == Cases([EMPTY, Prim(I64, 8)]);
  }

  /** An option of something with bytes: its flats behind a discriminant, its bytes behind a byte and padding. */
  lemma OptionLayout(some: Layout)
    requires Extent(some) > 0
    ensures var l := Cases([EMPTY, some]);
            && Flats(l) == [I32] + Flats(some) && Align(l) == Align(some)
            && Extent(l) == AlignUp(1, Align(some)) + Extent(some)
            && Size(l) == AlignUp(AlignUp(1, Align(some)) + Size(some), Align(some))
  {
    hide Flats, Align, Extent, Size;
    OptionFlats(some);
    OptionAlign(some);
    OptionSize(some);
  }

  lemma OptionFlats(some: Layout)
    ensures Flats(Cases([EMPTY, some])) == [I32] + Flats(some)
  {
    hide Align, Extent, Size;
    var l := Cases([EMPTY, some]);
    assert Parts(l)[0] == EMPTY && Parts(l)[1] == some && Flats(EMPTY) == [];
    assert JoinedFlats(l, 1) == JoinAll(JoinedFlats(l, 0), Flats(EMPTY)) == [];
    assert JoinedFlats(l, 2) == JoinAll([], Flats(some)) == Flats(some);
  }

  lemma OptionAlign(some: Layout)
    ensures var l := Cases([EMPTY, some]); Align(l) == Align(some) == Widest(l, 2)
  {
    hide Flats, Extent, Size;
    var l := Cases([EMPTY, some]);
    assert Parts(l)[0] == EMPTY && Parts(l)[1] == some && Align(EMPTY) == 1 && Alignment(Align(some));
    assert Widest(l, 1) == Wider(Widest(l, 0), Align(EMPTY)) == 1;
    assert Widest(l, 2) == Wider(1, Align(some)) == Align(some);
  }

  lemma OptionSize(some: Layout)
    requires Extent(some) > 0
    ensures var l, at := Cases([EMPTY, some]), AlignUp(1, Align(some));
            Extent(l) == at + Extent(some) && Size(l) == AlignUp(at + Size(some), Align(some))
  {
    var l := Cases([EMPTY, some]);
    assert Extent(EMPTY) == 0 && Size(EMPTY) == 0;
    OptionAlign(some);
    hide Flats, Align, Widest;
    assert Parts(l)[0] == EMPTY && Parts(l)[1] == some;
    assert Deepest(l, 1) == 0 && Deepest(l, 2) == Extent(some);
    assert Largest(l, 1) == 0 && Largest(l, 2) == Size(some);
  }

  /** A call of a function that takes nothing and returns an option of an option of a number, and its value lost. */
  lemma NestedOptionLost(page: nat) returns (c: Ctx)
    requires 88 <= page <= 65536
    ensures Callable(c) && Derive(WitFunction([], [], Some(NESTED))) == Success(c.f)
    ensures Spacious(c) && Formed(ResultLayout(c.f)) && c.f.resultDisc == Some(DISC_COMPLEX) && c.f.usesRetarea
    ensures HandedThrough(c, Losing(c)) && !Reaches(c, Losing(c))
  {
    NestedLayout();
    c := FirstCall(Some(NESTED), page);
    NothingPassed(WitFunction([], [], Some(NESTED)));
    hide Callable, HandedThrough, Reaches, Losing, RetSize, Extent, Size, Flatten, LayoutOf, Formed, Derive, Spacious;
    assert AlignUp(16, 8) == 16;
    assert !Roomy(c.f);
    ResultLost(c);
  }

  /** One parameter, and the list of arguments keeps the two apart. */
  lemma ParameterSaves(f: InterceptedFunction)
    requires Consistent(f) && f.result == Some(NESTED) && f.params != []
    ensures RetSize(f.resultFlats) < Extent(ResultLayout(f)) && Roomy(f)
  {
    NestedLayout();
    hide RetSize, Extent, LayoutOf, Flatten;
  }

  const TEXT := Pointed(Prim(I32, 1))
  const MAYBE := Cases([EMPTY, Prim(I64, 8)])
  const COUPLE := Fields([MAYBE, TEXT])
  const TANGLED := Id(TypeDef(None, OptionOf(Id(TypeDef(None, Tuple([Id(TypeDef(None, OptionOf(U64))), Text]))))))

  /** Some couple of nothing and a text of one byte. */
  const ONE_BYTE := Case(1, Many([Case(0, Many([])), Items([Bits(255)])]))

  lemma TangledLayout()
    ensures LayoutOf(TANGLED) == Cases([EMPTY, COUPLE]) && RetSize(Flatten(TANGLED)) == 24
    ensures PartAt(COUPLE, 0) == 0 && PartAt(COUPLE, 1) == 16 && PayloadAt(LayoutOf(TANGLED)) == 8
  {
    hide Flats, Extent, Size, Align, RetSize, Widest, EndOf, ExtentOf, FlatsOf;
    TangledIs();
    NumberLayout();
    OptionLayout(Prim(I64, 8));
    CoupleLayout();
    OptionLayout(COUPLE);
    TangledPayload();
    FiveFlats();
    assert [I32] + ([I32] + [I64] + [I32, I32]) == [I32, I32, I64, I32, I32];
  }

  lemma TangledIs()
    ensures LayoutOf(TANGLED) == Cases([EMPTY, COUPLE])
  {
    var maybe := Id(TypeDef(None, OptionOf(U64)));
    var couple := Id(TypeDef(None, Tuple([maybe, Text])));
    assert LayoutOf(maybe) == MAYBE;
    assert LayoutOf(couple).fields == [LayoutOf(maybe), LayoutOf(Text)];
  }

  lemma CoupleLayout()
    ensures Flats(COUPLE) == [I32] + [I64] + [I32, I32] && Align(COUPLE) == 8 && Extent(COUPLE) == 24
    ensures PartAt(COUPLE, 0) == 0 && PartAt(COUPLE, 1) == 16
  {
    hide Flats, Extent, Size, Align, Widest, EndOf, ExtentOf, FlatsOf;
    NumberLayout();
    HeadedParts();
    OptionLayout(Prim(I64, 8));
    assert AlignUp(1, 8) == 8 && AlignUp(16, 8) == 16 && AlignUp(16, 4) == 16;
    PairOf(MAYBE, TEXT);
    PairPlaces(MAYBE, TEXT);
  }

  lemma PairPlaces(a: Layout, b: Layout)
    ensures var l := Fields([a, b]); PartAt(l, 0) == 0 && PartAt(l, 1) == AlignUp(Size(a), Align(b))
  {
    hide Flats, Widest, Extent;
    var l := Fields([a, b]);
    assert Parts(l)[0] == a && Parts(l)[1] == b;
    ZeroAligned(Align(a));
    assert EndOf(l, 0) == 0 && PartAt(l, 0) == 0;
    assert EndOf(l, 1) == PartAt(l, 0) + Size(a);
  }

  lemma TangledPayload()
    ensures PayloadAt(Cases([EMPTY, COUPLE])) == 8
  {
    hide Flats, Extent, Size;
    CoupleLayout();
    var l := Cases([EMPTY, COUPLE]);
    assert Parts(l)[0] == EMPTY && Parts(l)[1] == COUPLE && Align(EMPTY) == 1;
    assert Widest(l, 1) == 1 && Widest(l, 2) == 8;
  }

  lemma FiveFlats()
    ensures RetSize([I32, I32, I64, I32, I32]) == 24
  {
    var flats := [I32, I32, I64, I32, I32];
    assert AreaEnd(flats, 1) == 4 && AreaEnd(flats, 2) == 8 && AreaEnd(flats, 3) == 16 && AreaEnd(flats, 4) == 20;
    assert SlotOffset(flats, 4) == 20 && AreaEnd(flats, 5) == 24;
  }

  /**
   * Worse than a later overwriting: where the allocator stands at the end of the area, a text goes where its own
   * address is stored next, and the value is lost before anything else happens.
   */
  lemma TextOverwritten(m: Mem, ret: nat)
    requires ret % 8 == 0 && ret + 32 <= |m| < T32
    ensures var r := Lower(m, ret + RetSize(Flatten(TANGLED)), LayoutOf(TANGLED), ret, ONE_BYTE);
            r.Some? && Lift(r.value.0, LayoutOf(TANGLED), ret) != Some(ONE_BYTE)
  {
    hide Lower, Lift, Store, RetSize, Flatten;
    TangledLayout();
    TangledStored(m, ret);
    var m2 := Store(Store(m, ret, 1, 1), ret + 8, 1, 0);
    Collides(m2, ret + 24);
    var r := Lower(m, ret + 24, LayoutOf(TANGLED), ret, ONE_BYTE);
    if Lift(r.value.0, LayoutOf(TANGLED), ret) == Some(ONE_BYTE) {
      TangledLoaded(r.value.0, ret);
    }
  }

  /** Storing the couple comes down to storing its text, once the discriminants are there. */
  lemma TangledStored(m: Mem, ret: nat)
    requires ret + 32 <= |m| < T32
    ensures Lower(m, ret + 24, LayoutOf(TANGLED), ret, ONE_BYTE) ==
              Lower(Store(Store(m, ret, 1, 1), ret + 8, 1, 0), ret + 24, TEXT, ret + 24, Items([Bits(255)]))
  {
    hide Store, RetSize, Flatten, LayoutOf, PartAt, PayloadAt, Size, Extent, Pow256, Align, Flats, LowerItems, ItemAt;
    TangledLayout();
    var h, m1 := ret + 24, Store(m, ret, 1, 1);
    var m2 := Store(m1, ret + 8, 1, 0);
    var vs := [Case(0, Many([])), Items([Bits(255)])];
    assert Lower(m2, h, EMPTY, ret + 8 + PayloadAt(MAYBE), Many([])) == Some((m2, h));
    assert Lower(m1, h, MAYBE, ret + 8, vs[0]) == Some((m2, h));
    assert Parts(COUPLE)[0] == MAYBE && Parts(COUPLE)[1] == TEXT;
    assert LowerParts(m1, h, COUPLE, ret + 8, vs, 0) == Some((m1, h));
    assert LowerParts(m1, h, COUPLE, ret + 8, vs, 1) == Some((m2, h));
    assert LowerParts(m1, h, COUPLE, ret + 8, vs, 2) == Lower(m2, h, TEXT, ret + 24, vs[1]);
    assert Lower(m1, h, COUPLE, ret + 8, Many(vs)) == LowerParts(m1, h, COUPLE, ret + 8, vs, 2);
    assert Lower(m, h, LayoutOf(TANGLED), ret, ONE_BYTE) == Lower(m1, h, COUPLE, ret + 8, Many(vs));
  }

  lemma TangledLoaded(m: Mem, ret: nat)
    requires Lift(m, LayoutOf(TANGLED), ret) == Some(ONE_BYTE)
    ensures Lift(m, TEXT, ret + 24) == Some(Items([Bits(255)]))
  {
    hide Load, RetSize, Flatten, LayoutOf, PartAt, PayloadAt, Size, Extent, Align, ItemAt;
    TangledLayout();
    var couple := Lift(m, COUPLE, ret + 8);
    assert couple == Some(ONE_BYTE.payload);
    assert couple.value.parts[1] == Lift(m, COUPLE.fields[1], ret + 8 + PartAt(COUPLE, 1)).value;
  }

  /** A text of one byte in the block that its address is stored in. */
  lemma Collides(m: Mem, a: nat)
    requires a % 8 == 0 && a + 8 <= |m| < T32
    ensures var r := Lower(m, a, TEXT, a, Items([Bits(255)]));
            r.Some? && Lift(r.value.0, TEXT, a) != Some(Items([Bits(255)]))
  {
    hide Store, Load;
    Powers();
    var e := Prim(I32, 1);
    assert Size(e) == 1 == Align(e);
    assert ItemAt(e, a, 0) == a && ItemAt(e, a, 1) == a + 1;
    var m1 := Store(m, a, 1, 255);
    assert LowerItems(m, a + 1, e, a, [Bits(255)], 0) == Some((m, a + 1));
    assert LowerItems(m, a + 1, e, a, [Bits(255)], 1) == Lower(m, a + 1, e, a, Bits(255)) == Some((m1, a + 1));
    var m2 := Store(m1, a, 4, a);
    var m3 := Store(m2, a + 4, 4, 1);
    assert Lower(m, a, TEXT, a, Items([Bits(255)])) == Some((m3, a + 1));
    LoadStored(m1, a, 4, a);
    StoreKeeps(m2, a + 4, 4, 1);
    if Lift(m3, TEXT, a) == Some(Items([Bits(255)])) {
      assert Lift(m3, e, ItemAt(e, a, 0)) == Some(Bits(255));
      FirstByte(m3, a);
    }
  }

  /** A multiple of eight does not start with 255. */
  lemma FirstByte(m: Mem, a: nat)
    requires a + 4 <= |m| && a % 8 == 0 && W32(m, a) == a
    ensures Load(m, a, 1) != 255
  {
    assert m[a..a + 1] == [m[a]] && [m[a]][1..] == [];
    assert FromLE([m[a]]) == m[a] + 256 * FromLE([]) == m[a];
    assert m[a..a + 4][0] == m[a];
    var rest := FromLE(m[a..a + 4][1..]);
    assert W32(m, a) == m[a] + 256 * rest;
    assert (m[a] + 256 * rest) % 8 == m[a] % 8;
  }

  const HEADED := Id(TypeDef(None, Record([Id(TypeDef(None, Record([U64, U8]))), Text])))

  /** A record that outgrows its area by four bytes, just what the empty list of arguments is aligned by. */
  lemma AlignmentSaves(f: InterceptedFunction)
    requires Consistent(f) && f.result == Some(HEADED)
    ensures RetSize(f.resultFlats) == 20 && Extent(ResultLayout(f)) == 24 && Roomy(f)
  {
    HeadedLayout();
    FourFlats();
    hide RetSize, Extent, LayoutOf, Flats;
    assert AlignUp(20, 8) == 24;
  }

  lemma FourFlats()
    ensures RetSize([I64, I32, I32, I32]) == 20
  {
    var flats := [I64, I32, I32, I32];
    assert AreaEnd(flats, 1) == 8 && AreaEnd(flats, 2) == 12 && AreaEnd(flats, 3) == 16 && AreaEnd(flats, 4) == 20;
  }

  lemma HeadedLayout()
    ensures Flatten(HEADED) == [I64, I32, I32, I32] && Extent(LayoutOf(HEADED)) == 24
  {
    hide Flats, Extent, Size, Align, LayoutOf, Widest, EndOf, ExtentOf, FlatsOf, PartAt;
    HeadedIs();
    HeadedParts();
    PairOf(Prim(I64, 8), Prim(I32, 1));
    PairOf(Fields([Prim(I64, 8), Prim(I32, 1)]), Pointed(Prim(I32, 1)));
    assert AlignUp(8, 1) == 8 && AlignUp(9, 8) == 16 && AlignUp(16, 4) == 16;
  }

  lemma HeadedParts()
    ensures var number, byte, text := Prim(I64, 8), Prim(I32, 1), Pointed(Prim(I32, 1));
            && Flats(number) == [I64] && Size(number) == 8 == Align(number)
            && Flats(byte) == [I32] && Size(byte) == 1 == Align(byte) == Extent(byte)
            && Flats(text) == [I32, I32] && Extent(text) == 8 && Align(text) == 4
  {
  }

  lemma HeadedIs()
    ensures LayoutOf(HEADED) == Fields([Fields([Prim(I64, 8), Prim(I32, 1)]), Pointed(Prim(I32, 1))])
  {
    var head := Id(TypeDef(None, Record([U64, U8])));
    assert LayoutOf(head).fields == [Prim(I64, 8), Prim(I32, 1)];
    assert LayoutOf(HEADED).fields == [LayoutOf(head), LayoutOf(Text)];
  }

  /** Two parts, the second with bytes. */
  lemma PairOf(a: Layout, b: Layout)
    requires Extent(b) > 0
    ensures var l, at := Fields([a, b]), AlignUp(Size(a), Align(b));
            && Flats(l) == Flats(a) + Flats(b) && Align(l) == Wider(Align(a), Align(b))
            && Extent(l) == at + Extent(b) && Size(l) == AlignUp(at + Size(b), Align(l))
  {
    hide Flats, Align, Extent, Size;
    PairFlats(a, b);
    PairAlign(a, b);
    PairSize(a, b);
  }

  lemma PairFlats(a: Layout, b: Layout)
    ensures Flats(Fields([a, b])) == Flats(a) + Flats(b)
  {
    hide Size, Extent, Align;
    var l := Fields([a, b]);
    assert Parts(l)[0] == a && Parts(l)[1] == b;
    assert FlatsOf(l, 1) == FlatsOf(l, 0) + Flats(a) == Flats(a);
    assert FlatsOf(l, 2) == FlatsOf(l, 1) + Flats(b);
  }

  lemma PairAlign(a: Layout, b: Layout)
    ensures Align(Fields([a, b])) == Wider(Align(a), Align(b))
  {
    hide Size, Extent, Flats;
    var l := Fields([a, b]);
    assert Parts(l)[0] == a && Parts(l)[1] == b && Alignment(Align(a));
    assert Widest(l, 1) == Wider(Widest(l, 0), Align(a)) == Align(a);
    assert Widest(l, 2) == Wider(Widest(l, 1), Align(b));
  }

  lemma PairSize(a: Layout, b: Layout)
    requires Extent(b) > 0
    ensures var l, at := Fields([a, b]), AlignUp(Size(a), Align(b));
            Extent(l) == at + Extent(b) && Size(l) == AlignUp(at + Size(b), Align(l))
  {
    hide Flats, Widest;
    var l, at := Fields([a, b]), AlignUp(Size(a), Align(b));
    assert Parts(l)[0] == a && Parts(l)[1] == b && Alignment(Align(a));
    FieldsExtent(l);
    ZeroAligned(Align(a));
    assert EndOf(l, 0) == 0 && PartAt(l, 0) == 0;
    assert EndOf(l, 1) == PartAt(l, 0) + Size(a) == Size(a);
    assert PartAt(l, 1) == AlignUp(EndOf(l, 1), Align(b)) == at;
    assert EndOf(l, 2) == PartAt(l, 1) + Size(b);
    assert ExtentOf(l, 2) == PartAt(l, 1) + Extent(b);
  }

  lemma ZeroAligned(align: Width)
    ensures AlignUp(0, align) == 0
  {
  }
}
