/**
 * The advice interface's own types: what the host reads from memory as a `value` or an `arg`, by the canonical ABI, is
 * what the protocol takes it for.
 */
module AdviceInterface {
  import opened Wrappers
  import opened Memory
  import opened Layouts
  import opened CanonicalAbi
  import opened Signature
  import opened Protocol

  /** `variant value`, its cases in order. */
  const VALUE := Id(TypeDef(None, Variant([Some(Text), Some(S64), Some(U64), Some(Float32), Some(Float64), Some(Bool),
                                           Some(Text)])))

  /** `record arg`. */
  const ARG := Id(TypeDef(None, Record([Text, Text, VALUE])))

  const TEXT := Pointed(Prim(I32, 1))

  const VALUE_LAYOUT := Cases([TEXT, Prim(I64, 8), Prim(I64, 8), Prim(F32, 4), Prim(F64, 8), Prim(I32, 1), TEXT])

  const ARG_LAYOUT := Fields([TEXT, TEXT, VALUE_LAYOUT])

  lemma ValueWidest()
    ensures Widest(VALUE_LAYOUT, 7) == 8
  {
    var l := VALUE_LAYOUT;
    assert Widest(l, 0) == 1 && Widest(l, 1) == 4;
    assert Widest(l, 2) == 8;
    assert Widest(l, 3) == 8;
    assert Widest(l, 4) == 8;
    assert Widest(l, 5) == 8;
    assert Widest(l, 6) == 8;
  }

  lemma ValueLargest()
    ensures Largest(VALUE_LAYOUT, 7) == 8
  {
    var l := VALUE_LAYOUT;
    assert Largest(l, 0) == 0 && Largest(l, 1) == 8;
    assert Largest(l, 2) == 8;
    assert Largest(l, 3) == 8;
    assert Largest(l, 4) == 8;
    assert Largest(l, 5) == 8;
    assert Largest(l, 6) == 8;
  }

  /** A value has its tag at its start and its payload at eight. */
  lemma ValueLaidOut()
    ensures LayoutOf(VALUE) == VALUE_LAYOUT
    ensures PayloadAt(VALUE_LAYOUT) == 8 && Size(VALUE_LAYOUT) == 16 && Align(VALUE_LAYOUT) == 8
  {
    assert LayoutOf(VALUE).cases == VALUE_LAYOUT.cases;
    hide LayoutOf, Widest, Largest;
    ValueWidest();
    ValueLargest();
    assert UpTo8(1) == 8 && UpTo8(16) == 16;
  }

  /** An argument has its parts at zero, eight and sixteen. */
  lemma ArgLaidOut()
    ensures LayoutOf(ARG) == ARG_LAYOUT
    ensures PartAt(ARG_LAYOUT, 0) == 0 && PartAt(ARG_LAYOUT, 1) == 8 && PartAt(ARG_LAYOUT, 2) == 16
    ensures Size(ARG_LAYOUT) == 32 && Align(ARG_LAYOUT) == 8
  {
    ValueLaidOut();
    var l := ARG_LAYOUT;
    assert LayoutOf(ARG).fields == l.fields;
    hide LayoutOf;
    assert Parts(l)[0] == TEXT && Parts(l)[1] == TEXT && Parts(l)[2] == VALUE_LAYOUT;
    assert Widest(l, 0) == 1 && Widest(l, 1) == 4;
    assert Widest(l, 2) == 4;
    assert Widest(l, 3) == 8;
    assert EndOf(l, 0) == 0 && PartAt(l, 0) == 0 && EndOf(l, 1) == 8;
    assert PartAt(l, 1) == 8 && EndOf(l, 2) == 16;
    assert PartAt(l, 2) == 16 && EndOf(l, 3) == 32;
  }

  // ---- Values as the host knows them --------------------------------------------------------------------------------

  function TextDatum(text: seq<Byte>): Datum {
    Items(seq(|text|, i requires 0 <= i < |text| => Bits(text[i])))
  }

  /** A protocol value as a value of the interface's type, its case by position. */
  function ValueDatum(v: Value): Datum
    requires !v.Junk?
  {
    match v
    case Str(text) => Case(0, TextDatum(text))
    case Signed(x) => Case(1, Bits(x % T64))
    case Unsigned(u) => Case(2, Bits(u))
    case Single(bits) => Case(3, Bits(bits))
    case Double(bits) => Case(4, Bits(bits))
    case Boolean(b) => Case(5, Bits(if b then 1 else 0))
    case Complex(blob) => Case(6, TextDatum(blob))
  }

  function ArgDatum(arg: Arg): Datum
    requires !arg.value.Junk?
  {
    Many([TextDatum(arg.name), TextDatum(arg.typeName), ValueDatum(arg.value)])
  }

  lemma {:induction false} BytesApart(p: nat, i: nat)
    ensures ItemAt(Prim(I32, 1), p, i) == p + i
  {
    if i > 0 {
      BytesApart(p, i - 1);
    }
  }

  lemma ByteLoaded(m: Mem, a: nat)
    requires a < |m|
    ensures Load(m, a, 1) == m[a]
  {
    assert m[a..a + 1] == [m[a]] && [m[a]][1..] == [];
    assert FromLE([]) == 0;
  }

  lemma TextLifts(m: Mem, a: nat)
    requires a + 8 <= |m|
    ensures Lift(m, TEXT, a) ==
            var text := TextAt(m, W32(m, a), W32(m, a + 4));
            if text.Some? then Some(TextDatum(text.value)) else None
  {
    var p, n := W32(m, a), W32(m, a + 4);
    TextIs(m, p, n);
    hide *;
    if p + n <= |m| {
      TextThere(m, a, p, n);
    } else {
      BytesApart(p, n);
      NothingLifts(m, Prim(I32, 1), a);
    }
  }

  lemma TextIs(m: Mem, p: nat, n: nat)
    ensures TextAt(m, p, n) == if p + n <= |m| then Some(m[p..p + n]) else None
  {
  }

  lemma TextThere(m: Mem, a: nat, p: nat, n: nat)
    requires a + 8 <= |m| && W32(m, a) == p && W32(m, a + 4) == n && p + n <= |m|
    ensures Lift(m, TEXT, a) == Some(TextDatum(m[p..p + n]))
  {
    var elem, text := Prim(I32, 1), TextDatum(m[p..p + n]);
    BytesApart(p, n);
    BytesAligned(p);
    TextItems(m, p, n);
    assert text == Items(text.items);
    hide *;
    ItemsLift(m, elem, a, text.items);
  }

  lemma BytesAligned(p: nat)
    ensures Aligned(p, Align(Prim(I32, 1)))
  {
  }

  lemma TextItems(m: Mem, p: nat, n: nat)
    requires p + n <= |m|
    ensures TextDatum(m[p..p + n]).Items? && |TextDatum(m[p..p + n]).items| == n
    ensures forall i :: 0 <= i < n ==>
              Lift(m, Prim(I32, 1), ItemAt(Prim(I32, 1), p, i)) == Some(TextDatum(m[p..p + n]).items[i])
  {
    hide Lift, ItemAt;
    forall i | 0 <= i < n
      ensures Lift(m, Prim(I32, 1), ItemAt(Prim(I32, 1), p, i)) == Some(TextDatum(m[p..p + n]).items[i])
    {
      BytesApart(p, i);
      ByteLifts(m, p + i);
    }
  }

  lemma ByteLifts(m: Mem, a: nat)
    requires a < |m|
    ensures Lift(m, Prim(I32, 1), a) == Some(Bits(m[a]))
  {
    ByteLoaded(m, a);
    hide Load;
  }

  lemma NothingLifts(m: Mem, elem: Layout, at: nat)
    requires at + 8 <= |m| && ItemAt(elem, W32(m, at), W32(m, at + 4)) > |m|
    ensures Lift(m, Pointed(elem), at) == None
  {
    hide W32, ItemAt;
  }

  /** What the host loads as a `value`, by the tag at its start. */
  lemma ValueLoaded(m: Mem, a: nat)
    requires a + 16 <= |m|
    ensures Lift(m, VALUE_LAYOUT, a) ==
            var tag, text := m[a], TextAt(m, W32(m, a + 8), W32(m, a + 12));
            if tag == 0 || tag == 6 then (if text.Some? then Some(Case(tag, TextDatum(text.value))) else None)
            else if tag < 7 then
              Some(Case(tag, Bits(if tag == 3 then W32(m, a + 8) else if tag == 5 then m[a + 8]
                                  else Load(m, a + 8, 8))))
            else None
  {
    ValueLaidOut();
    ByteLoaded(m, a);
    TextLifts(m, a + 8);
    var tag := m[a];
    if tag < 7 {
      PayloadLifts(m, a + 8, tag);
    }
    hide PayloadAt, Align, Size, LayoutOf, TextAt, Load, W32, TextDatum;
    assert |VALUE_LAYOUT.cases| == 7;
  }

  /** What the protocol reads at an address, unless it is junk, is what the host loads from there as a `value`. */
  lemma ValueLifts(m: Mem, a: nat)
    requires a + 16 <= |m| && !ValueAt(m, a).Junk?
    ensures Lift(m, VALUE_LAYOUT, a) == Some(ValueDatum(ValueAt(m, a)))
  {
    if m[a] == 5 {
      BooleanLifts(m, a);
    } else if m[a] == 0 || m[a] == 3 || m[a] == 6 {
      ShortLifts(m, a);
    } else {
      WordLifts(m, a);
    }
  }

  lemma BooleanLifts(m: Mem, a: nat)
    requires a + 16 <= |m| && m[a] == 5 && !ValueAt(m, a).Junk?
    ensures Lift(m, VALUE_LAYOUT, a) == Some(ValueDatum(ValueAt(m, a)))
  {
    ValueLoaded(m, a);
    BooleanByte(m, a + 8);
    hide Lift, TextDatum, TextAt, Load, AsSigned;
  }

  lemma ShortLifts(m: Mem, a: nat)
    requires a + 16 <= |m| && (m[a] == 0 || m[a] == 3 || m[a] == 6) && !ValueAt(m, a).Junk?
    ensures Lift(m, VALUE_LAYOUT, a) == Some(ValueDatum(ValueAt(m, a)))
  {
    ValueLoaded(m, a);
    hide Lift, TextDatum, TextAt, Load, W32, AsSigned;
  }

  lemma WordLifts(m: Mem, a: nat)
    requires a + 16 <= |m| && (m[a] == 1 || m[a] == 2 || m[a] == 4)
    ensures Lift(m, VALUE_LAYOUT, a) == Some(ValueDatum(ValueAt(m, a)))
  {
    ValueLoaded(m, a);
    Load64(m, a + 8);
    SignedWord(Load(m, a + 8, 8));
    hide Lift, TextDatum, TextAt, Load, W32, AsSigned;
  }

  /** It is junk just where the host finds no value, or a boolean in a word that is neither zero nor one. */
  lemma JunkExactly(m: Mem, a: nat)
    requires a + 16 <= |m|
    ensures ValueAt(m, a).Junk? <==>
            Lift(m, VALUE_LAYOUT, a).None? || (m[a] == 5 && !(W32(m, a + 8) <= 1 && W32(m, a + 12) == 0))
  {
    ValueLoaded(m, a);
    hide Lift, TextDatum, TextAt, Load, W32, AsSigned;
  }

  lemma SignedWord(word: nat)
    requires word < T64
    ensures AsSigned(word) % T64 == word
  {
  }

  /** A word of a low byte and nothing else. */
  lemma BooleanByte(m: Mem, a: nat)
    requires a + 4 <= |m|
    ensures W32(m, a) <= 1 ==> m[a] == W32(m, a)
  {
    assert m[a..a + 4][0] == m[a];
  }

  lemma PayloadLifts(m: Mem, a: nat, tag: nat)
    requires a + 8 <= |m| && tag < 7
    ensures Lift(m, VALUE_LAYOUT.cases[tag], a) ==
            if tag == 0 || tag == 6 then Lift(m, TEXT, a)
            else Some(Bits(if tag == 3 then W32(m, a) else if tag == 5 then m[a] else Load(m, a, 8)))
  {
    ByteLoaded(m, a);
    hide Load;
  }

  lemma PartsLift(m: Mem, l: Layout, a: nat, parts: seq<Datum>)
    requires l.Fields? && |parts| == |l.fields|
    requires forall j :: 0 <= j < |parts| ==> Lift(m, l.fields[j], a + PartAt(l, j)) == Some(parts[j])
    ensures Lift(m, l, a) == Some(Many(parts))
  {
    hide PartAt;
    assert Lift(m, l, a).value.parts == parts;
  }

  lemma ItemsLift(m: Mem, elem: Layout, at: nat, items: seq<Datum>)
    requires at + 8 <= |m| && Aligned(W32(m, at), Align(elem)) && W32(m, at + 4) == |items|
    requires ItemAt(elem, W32(m, at), |items|) <= |m|
    requires forall i :: 0 <= i < |items| ==> Lift(m, elem, ItemAt(elem, W32(m, at), i)) == Some(items[i])
    ensures Lift(m, Pointed(elem), at) == Some(Items(items))
  {
    hide W32, ItemAt, Align;
    assert Lift(m, Pointed(elem), at).value.items == items;
  }

  lemma ThreeLift(m: Mem, a: nat, x: Datum, y: Datum, z: Datum)
    requires Lift(m, TEXT, a) == Some(x) && Lift(m, TEXT, a + 8) == Some(y) && Lift(m, VALUE_LAYOUT, a + 16) == Some(z)
    ensures Lift(m, ARG_LAYOUT, a) == Some(Many([x, y, z]))
  {
    ArgLaidOut();
    hide PartAt, LayoutOf, Size, Align, Lift;
    var l := ARG_LAYOUT;
    assert l.fields[0] == TEXT && l.fields[1] == TEXT && l.fields[2] == VALUE_LAYOUT;
    PartsLift(m, l, a, [x, y, z]);
  }

  lemma ArgLifts(m: Mem, a: nat)
    requires a + 32 <= |m| && ArgAt(m, a).Some? && !ArgAt(m, a).value.value.Junk?
    ensures Lift(m, ARG_LAYOUT, a) == Some(ArgDatum(ArgAt(m, a).value))
  {
    TextLifts(m, a);
    TextLifts(m, a + 8);
    ValueLifts(m, a + 16);
    hide TextAt, W32, ValueAt, TextDatum, ValueDatum, Lift;
    var arg := ArgAt(m, a).value;
    ThreeLift(m, a, TextDatum(arg.name), TextDatum(arg.typeName), ValueDatum(arg.value));
  }

  lemma {:induction false} ArgsApart(a: nat, i: nat)
    ensures ItemAt(ARG_LAYOUT, a, i) == a + 32 * i
  {
    ArgLaidOut();
    hide Size;
    if i > 0 {
      ArgsApart(a, i - 1);
    }
  }

  /**
   * The records of a list of arguments are that list as the host loads it: an advice component that is handed their
   * address and number gets just the arguments the protocol speaks of.
   */
  lemma ArgsLift(m: Mem, at: nat, args: seq<Arg>)
    requires at + 8 <= |m| && W32(m, at + 4) == |args| && ArgsAt(m, W32(m, at), args)
    requires forall i :: 0 <= i < |args| ==> !args[i].value.Junk?
    ensures Lift(m, Pointed(LayoutOf(ARG)), at) ==
            Some(Items(seq(|args|, i requires 0 <= i < |args| => ArgDatum(args[i]))))
  {
    ArgLaidOut();
    hide Align, Size, LayoutOf, W32, Lift, ItemAt, ArgDatum, PartAt, ArgAt;
    var a := W32(m, at);
    var items := seq(|args|, i requires 0 <= i < |args| => ArgDatum(args[i]));
    ArgsApart(a, |args|);
    forall i | 0 <= i < |args|
      ensures Lift(m, ARG_LAYOUT, ItemAt(ARG_LAYOUT, a, i)) == Some(items[i])
    {
      ArgsApart(a, i);
      assert ArgAt(m, a + 32 * i) == Some(args[i]);
      ArgLifts(m, a + 32 * i);
    }
    ItemsLift(m, ARG_LAYOUT, at, items);
  }
}
