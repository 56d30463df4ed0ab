/** Where one path leads through another's leaf: when the order of insertion decides whether there is a schema. */
module InsertionOrder {
  import opened Json
  import opened InputSchema
  import opened Wrappers

  /** What stands at a path. */
  function At(node: Schema, p: Path): Option<Schema>
    decreases |p|
  {
    if p == [] then Some(node) else
    var props := PropertiesOf(node);
    if p[0] in props then At(props[p[0]], p[1..]) else None
  }

  function Child(node: Schema, h: string): Schema {
    if h in PropertiesOf(node) then PropertiesOf(node)[h] else EMPTY
  }

  /** A node with `x` at a path, every key on the way required. */
  function Put(node: Schema, p: Path, x: Schema): Schema
    decreases |p|
  {
    if p == [] then x else
    node.(required := node.required + {p[0]},
          properties := Properties(PropertiesOf(node)[p[0] := Put(Child(node, p[0]), p[1..], x)]))
  }

  /** Neither path leads through the other's end. */
  predicate Apart(p: Path, q: Path) {
    p != q && !Below(p, q) && !Below(q, p)
  }

  lemma {:induction false} InsertIs(node: Schema, p: Path, leaf: Schema)
    requires p != []
    ensures Insert(node, Keys(p), leaf) == if At(node, p).Some? && At(node, p) != Some(leaf) then None
              else Some(Put(node, p, leaf))
    decreases |p|
  {
    assert Keys(p)[0] == Key(p[0]);
    if |p| == 1 {
      assert p[1..] == [];
      assert p[0] in PropertiesOf(node) && PropertiesOf(node)[p[0]] == leaf ==>
        PropertiesOf(node)[p[0] := leaf] == PropertiesOf(node);
    } else {
      assert Keys(p)[1..] == Keys(p[1..]);
      InsertIs(Child(node, p[0]), p[1..], leaf);
      if p[0] !in PropertiesOf(node) {
        NothingInEmpty(p[1..]);
      }
    }
  }

  lemma NothingInEmpty(p: Path)
    requires p != []
    ensures At(EMPTY, p).None?
  {
  }

  lemma {:induction false} PutAt(node: Schema, p: Path, x: Schema)
    ensures At(Put(node, p, x), p) == Some(x)
    decreases |p|
  {
    if p != [] {
      PutAt(Child(node, p[0]), p[1..], x);
    }
  }

  lemma {:induction false} PutElsewhere(node: Schema, p: Path, q: Path, x: Schema)
    requires p != [] && q != [] && Apart(p, q)
    ensures At(Put(node, p, x), q) == At(node, q)
    decreases |p|
  {
    if p[0] == q[0] {
      TailsApart(p, q);
      PutElsewhere(Child(node, p[0]), p[1..], q[1..], x);
      if p[0] !in PropertiesOf(node) {
        NothingInEmpty(q[1..]);
      }
    }
  }

  lemma TailsApart(p: Path, q: Path)
    requires p != [] && q != [] && Apart(p, q) && p[0] == q[0]
    ensures p[1..] != [] && q[1..] != [] && Apart(p[1..], q[1..])
  {
    assert p == [p[0]] + p[1..] && q == [q[0]] + q[1..];
    if |p| <= |q| {
      assert q[..|p|] == [q[0]] + q[1..][..|p| - 1];
    }
    if |q| <= |p| {
      assert p[..|q|] == [p[0]] + p[1..][..|q| - 1];
    }
  }

  lemma {:induction false} PutTwice(node: Schema, p: Path, x: Schema, y: Schema)
    ensures Put(Put(node, p, x), p, y) == Put(node, p, y)
    decreases |p|
  {
    if p != [] {
      PutTwice(Child(node, p[0]), p[1..], x, y);
      var once := Put(node, p, x);
      assert PropertiesOf(once)[p[0] := Put(Child(once, p[0]), p[1..], y)] == PropertiesOf(Put(node, p, y));
    }
  }

  /** Below a path that holds `x`, insertion works on `x`. */
  lemma {:induction false} PutUnder(node: Schema, p: Path, x: Schema, q: Path, y: Schema)
    ensures Put(Put(node, p, x), p + q, y) == Put(node, p, Put(x, q, y))
    ensures At(Put(node, p, x), p + q) == At(x, q)
    decreases |p|
  {
    if p == [] {
      assert p + q == q;
    } else {
      assert (p + q)[1..] == p[1..] + q;
      PutUnder(Child(node, p[0]), p[1..], x, q, y);
      var once := Put(node, p, x);
      assert PropertiesOf(once)[p[0] := Put(Child(once, p[0]), p[1..] + q, y)] ==
        PropertiesOf(Put(node, p, Put(x, q, y)));
    }
  }

  /** Where nothing stands, insertion below starts from a fresh object. */
  lemma {:induction false} PutFresh(node: Schema, p: Path, q: Path, y: Schema)
    requires p != [] && q != [] && At(node, p).None?
    ensures Put(node, p + q, y) == Put(node, p, Put(EMPTY, q, y)) && At(node, p + q).None?
    decreases |p|
  {
    assert (p + q)[1..] == p[1..] + q;
    if p[0] in PropertiesOf(node) {
      PutFresh(Child(node, p[0]), p[1..], q, y);
    } else {
      if p[1..] == [] {
        assert p[1..] + q == q;
      } else {
        NothingInEmpty(p[1..]);
        PutFresh(EMPTY, p[1..], q, y);
      }
    }
  }

  // ---- One after another ------------------------------------------------------------------------------------

  type Leaf = (Path, Schema)

  function InsertEach(node: Schema, leaves: seq<Leaf>): Option<Schema>
    decreases |leaves|
  {
    if leaves == [] then Some(node) else
    match Insert(node, Keys(leaves[0].0), leaves[0].1)
    case None => None
    case Some(next) => InsertEach(next, leaves[1..])
  }

  function Under(p: Path, inner: seq<Leaf>): (r: seq<Leaf>)
    ensures |r| == |inner| && forall i :: 0 <= i < |r| ==> r[i] == (p + inner[i].0, inner[i].1)
  {
    seq(|inner|, i requires 0 <= i < |inner| => (p + inner[i].0, inner[i].1))
  }

  lemma {:induction false} EachThen(node: Schema, a: seq<Leaf>, b: seq<Leaf>)
    ensures InsertEach(node, a + b) == match InsertEach(node, a) case None => None
              case Some(next) => InsertEach(next, b)
    decreases |a|
  {
    if a == [] {
      assert a + b == b;
    } else {
      assert (a + b)[1..] == a[1..] + b;
      var next := Insert(node, Keys(a[0].0), a[0].1);
      if next.Some? {
        EachThen(next.value, a[1..], b);
      }
    }
  }

  /** Paths that do not meet. */
  predicate Scattered(leaves: seq<Leaf>) {
    && (forall i :: 0 <= i < |leaves| ==> leaves[i].0 != [])
    && (forall i, j :: 0 <= i < |leaves| && 0 <= j < |leaves| && i != j ==> Apart(leaves[i].0, leaves[j].0))
  }

  /** Nothing else stands at any of the paths. */
  predicate Fits(node: Schema, leaves: seq<Leaf>) {
    forall i :: 0 <= i < |leaves| ==> At(node, leaves[i].0).None? || At(node, leaves[i].0) == Some(leaves[i].1)
  }

  lemma {:induction false} EachFits(node: Schema, leaves: seq<Leaf>)
    requires Scattered(leaves)
    ensures InsertEach(node, leaves).Some? <==> Fits(node, leaves)
    ensures InsertEach(node, leaves).Some? ==>
              forall i :: 0 <= i < |leaves| ==> At(InsertEach(node, leaves).value, leaves[i].0) == Some(leaves[i].1)
    decreases |leaves|
  {
    if leaves != [] {
      var p, x, rest := leaves[0].0, leaves[0].1, leaves[1..];
      InsertIs(node, p, x);
      if Insert(node, Keys(p), x).Some? {
        var next := Put(node, p, x);
        forall i | 0 <= i < |rest|
          ensures At(next, rest[i].0) == At(node, rest[i].0)
        {
          assert rest[i] == leaves[i + 1];
          PutElsewhere(node, p, rest[i].0, x);
        }
        EachFits(next, rest);
        PutAt(node, p, x);
        if InsertEach(next, rest).Some? {
          EachElsewhere(next, rest, p);
          forall i | 0 <= i < |leaves|
            ensures At(InsertEach(node, leaves).value, leaves[i].0) == Some(leaves[i].1)
          {
            if i > 0 {
              assert leaves[i] == rest[i - 1];
            }
          }
        }
        assert Fits(next, rest) <==> Fits(node, rest);
        FitsParts(node, leaves);
      }
    }
  }

  lemma FitsParts(node: Schema, leaves: seq<Leaf>)
    requires leaves != []
    ensures Fits(node, leaves) <==>
              (At(node, leaves[0].0).None? || At(node, leaves[0].0) == Some(leaves[0].1)) && Fits(node, leaves[1..])
  {
    assert leaves == [leaves[0]] + leaves[1..];
    if Fits(node, leaves) {
      forall i | 0 <= i < |leaves[1..]|
        ensures At(node, leaves[1..][i].0).None? || At(node, leaves[1..][i].0) == Some(leaves[1..][i].1)
      {
        assert leaves[1..][i] == leaves[i + 1];
      }
    }
  }

  lemma {:induction false} EachElsewhere(node: Schema, leaves: seq<Leaf>, q: Path)
    requires q != [] && InsertEach(node, leaves).Some?
    requires forall i :: 0 <= i < |leaves| ==> leaves[i].0 != [] && Apart(leaves[i].0, q)
    ensures At(InsertEach(node, leaves).value, q) == At(node, q)
    decreases |leaves|
  {
    if leaves != [] {
      InsertIs(node, leaves[0].0, leaves[0].1);
      PutElsewhere(node, leaves[0].0, q, leaves[0].1);
      EachElsewhere(Put(node, leaves[0].0, leaves[0].1), leaves[1..], q);
    }
  }

  /** Leaves below a path go into what stands there. */
  lemma {:induction false} EachUnder(node: Schema, p: Path, x: Schema, inner: seq<Leaf>)
    requires p != [] && forall i :: 0 <= i < |inner| ==> inner[i].0 != []
    ensures InsertEach(Put(node, p, x), Under(p, inner)) ==
            match InsertEach(x, inner) case None => None case Some(y) => Some(Put(node, p, y))
    decreases |inner|
  {
    if inner != [] {
      var q, y := inner[0].0, inner[0].1;
      assert Under(p, inner)[0].0 == p + q && p + q != [] && Under(p, inner)[1..] == Under(p, inner[1..]);
      InsertIs(Put(node, p, x), p + q, y);
      InsertIs(x, q, y);
      PutUnder(node, p, x, q, y);
      if Insert(x, Keys(q), y).Some? {
        EachUnder(node, p, Put(x, q, y), inner[1..]);
      }
    }
  }

  lemma EachUnderFresh(node: Schema, p: Path, inner: seq<Leaf>)
    requires p != [] && inner != [] && (forall i :: 0 <= i < |inner| ==> inner[i].0 != []) && At(node, p).None?
    ensures InsertEach(node, Under(p, inner)) ==
            match InsertEach(EMPTY, inner) case None => None case Some(y) => Some(Put(node, p, y))
  {
    var q, y := inner[0].0, inner[0].1;
    assert Under(p, inner)[0].0 == p + q && p + q != [] && Under(p, inner)[1..] == Under(p, inner[1..]);
    PutFresh(node, p, q, y);
    NothingInEmpty(q);
    InsertIs(node, p + q, y);
    InsertIs(EMPTY, q, y);
    EachUnder(node, p, Put(EMPTY, q, y), inner[1..]);
  }

  // ---- A leaf above others ------------------------------------------------------------------------------------

  /** The outcome when the leaf at `p` comes after the first `k` of those below it. */
  function Outcome(node: Schema, p: Path, outer: Schema, inner: seq<Leaf>, k: nat): Option<Schema>
    requires k <= |inner|
  {
    InsertEach(node, Under(p, inner[..k]) + [(p, outer)] + Under(p, inner[k..]))
  }

  lemma FirstK(inner: seq<Leaf>, k: nat)
    requires Scattered(inner) && k <= |inner|
    ensures Scattered(inner[..k]) && Scattered(inner[k..])
    ensures InsertEach(EMPTY, inner[..k]).Some?
    ensures forall i :: 0 <= i < |inner| ==>
              At(InsertEach(EMPTY, inner[..k]).value, inner[i].0) == if i < k then Some(inner[i].1) else None
  {
    var some := inner[..k];
    forall i | 0 <= i < |inner|
      ensures At(EMPTY, inner[i].0).None?
    {
      NothingInEmpty(inner[i].0);
    }
    EachFits(EMPTY, some);
    forall i | 0 <= i < |inner|
      ensures At(InsertEach(EMPTY, some).value, inner[i].0) == if i < k then Some(inner[i].1) else None
    {
      if i < k {
        assert some[i] == inner[i];
      } else {
        EachElsewhere(EMPTY, some, inner[i].0);
      }
    }
  }

  /**
   * First, the leaf takes in those below it if nothing else stands at their paths; later, it must be what they made.
   */
  lemma OutcomeIs(node: Schema, p: Path, outer: Schema, inner: seq<Leaf>, k: nat)
    requires p != [] && At(node, p).None? && Scattered(inner) && k <= |inner|
    ensures InsertEach(EMPTY, inner[..k]).Some? && InsertEach(EMPTY, inner).Some?
    ensures k == 0 ==> (Outcome(node, p, outer, inner, 0).Some? <==> Fits(outer, inner))
    ensures k > 0 ==> Outcome(node, p, outer, inner, k) ==
                        if InsertEach(EMPTY, inner[..k]) == Some(outer) then
                            Some(Put(node, p, InsertEach(EMPTY, inner).value)) else None
  {
    FirstK(inner, k);
    FirstK(inner, |inner|);
    assert inner[..|inner|] == inner && inner == inner[..k] + inner[k..];
    var before, after := Under(p, inner[..k]), Under(p, inner[k..]);
    EachThen(node, before + [(p, outer)], after);
    EachThen(node, before, [(p, outer)]);
    EachThen(EMPTY, inner[..k], inner[k..]);
    if k == 0 {
      assert inner[k..] == inner;
      InsertIs(node, p, outer);
      InsertOne(node, p, outer);
      EachUnder(node, p, outer, inner);
      EachFits(outer, inner);
    } else {
      EachUnderFresh(node, p, inner[..k]);
      var made := InsertEach(EMPTY, inner[..k]).value;
      PutAt(node, p, made);
      InsertIs(Put(node, p, made), p, outer);
      InsertOne(Put(node, p, made), p, outer);
      if made == outer {
        PutTwice(node, p, made, outer);
        EachUnder(node, p, outer, inner[k..]);
      }
    }
  }

  lemma InsertOne(node: Schema, p: Path, x: Schema)
    ensures InsertEach(node, [(p, x)]) == Insert(node, Keys(p), x)
  {
    assert [(p, x)][1..] == [];
  }

  /** Whether the leaf is exactly what the only leaf below it makes. */
  predicate Same(outer: Schema, inner: seq<Leaf>) {
    |inner| == 1 && outer == Put(EMPTY, inner[0].0, inner[0].1)
  }

  /**
   * A leaf above others, and nothing at its path yet. Every order fails exactly when the leaf holds something else at
   * one of their paths; every order succeeds, with one result, exactly when there is one leaf below and it alone makes
   * the leaf above. In all other cases the order decides.
   */
  lemma OrderDecides(node: Schema, p: Path, outer: Schema, inner: seq<Leaf>)
    requires p != [] && At(node, p).None? && Scattered(inner) && inner != []
    ensures (forall k :: 0 <= k <= |inner| ==> Outcome(node, p, outer, inner, k).None?) <==> !Fits(outer, inner)
    ensures (forall k :: 0 <= k <= |inner| ==> Outcome(node, p, outer, inner, k).Some?) <==> Same(outer, inner)
    ensures Same(outer, inner) ==> forall k :: 0 <= k <= |inner| ==>
              Outcome(node, p, outer, inner, k) == Some(Put(node, p, outer))
  {
    hide Outcome, Fits, InsertEach, Put;
    OutcomeIs(node, p, outer, inner, 0);
    forall k | 0 < k <= |inner|
      ensures Outcome(node, p, outer, inner, k).Some? ==> Fits(outer, inner)
      ensures Outcome(node, p, outer, inner, k).Some? <==> InsertEach(EMPTY, inner[..k]) == Some(outer)
    {
      OutcomeIs(node, p, outer, inner, k);
      FirstK(inner, k);
      if InsertEach(EMPTY, inner[..k]) == Some(outer) {
        MadeFits(outer, inner, k);
      }
    }
    FirstLeaf(inner);
    if |inner| == 1 {
      SingleOutcomes(node, p, outer, inner);
    } else {
      FirstK(inner, 1);
      FirstK(inner, 2);
      assert At(InsertEach(EMPTY, inner[..1]).value, inner[1].0) != At(InsertEach(EMPTY, inner[..2]).value, inner[1].0);
      assert !(Outcome(node, p, outer, inner, 1).Some? && Outcome(node, p, outer, inner, 2).Some?);
    }
  }

  lemma MadeFits(outer: Schema, inner: seq<Leaf>, k: nat)
    requires Scattered(inner) && k <= |inner| && InsertEach(EMPTY, inner[..k]) == Some(outer)
    ensures Fits(outer, inner)
  {
    FirstK(inner, k);
  }

  lemma FirstLeaf(inner: seq<Leaf>)
    requires Scattered(inner) && inner != []
    ensures InsertEach(EMPTY, inner[..1]) == Some(Put(EMPTY, inner[0].0, inner[0].1))
  {
    InsertOne(EMPTY, inner[0].0, inner[0].1);
    assert inner[..1] == [inner[0]];
    NothingInEmpty(inner[0].0);
    InsertIs(EMPTY, inner[0].0, inner[0].1);
  }

  lemma SingleOutcomes(node: Schema, p: Path, outer: Schema, inner: seq<Leaf>)
    requires p != [] && At(node, p).None? && Scattered(inner) && |inner| == 1
    ensures Outcome(node, p, outer, inner, 1).Some? <==> Same(outer, inner)
    ensures Same(outer, inner) ==>
              Outcome(node, p, outer, inner, 0) == Outcome(node, p, outer, inner, 1) == Some(Put(node, p, outer))
  {
    FirstLeaf(inner);
    assert inner[..1] == inner;
    OutcomeIs(node, p, outer, inner, 1);
    if Same(outer, inner) {
      MadeFits(outer, inner, 1);
      OutcomeIs(node, p, outer, inner, 0);
      OuterThenOne(node, p, outer, inner);
    }
  }

  lemma OuterThenOne(node: Schema, p: Path, outer: Schema, inner: seq<Leaf>)
    requires p != [] && At(node, p).None? && Scattered(inner) && Same(outer, inner)
    ensures Outcome(node, p, outer, inner, 0) == Some(Put(node, p, outer))
  {
    var q, y := inner[0].0, inner[0].1;
    assert Under(p, inner[..0]) + [(p, outer)] + Under(p, inner[0..]) == [(p, outer)] + Under(p, inner);
    EachThen(node, [(p, outer)], Under(p, inner));
    InsertIs(node, p, outer);
    InsertOne(node, p, outer);
    EachUnder(node, p, outer, inner);
    PutAt(EMPTY, q, y);
    PutTwice(EMPTY, q, y, y);
    InsertIs(outer, q, y);
    InsertOne(outer, q, y);
    assert inner == [(q, y)];
  }

  /**
   * The order decides for a titled record and one of its own fields: the field alone makes a record without the
   * title.
   */
  lemma OrderMattersOtherwise()
    ensures var record := ClosedObject(map["x" := Typed(StringKind)], {"x"}).(title := Some("r"));
            var outer, inner := [Key("a")], [Key("a"), Key("x")];
            var outerFirst := Insert(EMPTY, outer, record);
            var innerFirst := Insert(EMPTY, inner, Typed(StringKind));
            && outerFirst.Some? && Insert(outerFirst.value, inner, Typed(StringKind)).Some?
            && innerFirst.Some? && Insert(innerFirst.value, outer, record).None?
  {
    var record := ClosedObject(map["x" := Typed(StringKind)], {"x"}).(title := Some("r"));
    var outer, inner := [Key("a")], [Key("a"), Key("x")];
    assert inner[1..] == [Key("x")];
    var outerFirst := Insert(EMPTY, outer, record).value;
    assert record.required + {"x"} == record.required;
    assert Insert(record, [Key("x")], Typed(StringKind)) == Some(record);
    assert PropertiesOf(outerFirst)["a"] == record;
    var nested := Insert(EMPTY, [Key("x")], Typed(StringKind)).value;
    assert nested.title == None;
    assert PropertiesOf(Insert(EMPTY, inner, Typed(StringKind)).value)["a"] == nested;
  }
}
