/** Which bodies the derived input schema accepts. */
module InputAcceptance {
  import opened Json
  import opened InputSchema
  import opened Wrappers

  /** A body of the derived shape has a value at each leaf's path, and it conforms to the leaf. */
  lemma {:induction false} LeafPresent(v: Value, leaves: map<Path, Schema>, prefix: Path, n: nat, p: Path)
    requires Within(leaves, n) && |prefix| <= n && PrefixFree(leaves.Keys)
    requires p in leaves && Below(prefix, p) && Conforms(v, Tree(leaves, prefix, n))
    ensures var found := Lookup(v, Keys(p[|prefix|..])); found.Some? && Conforms(found.value, leaves[p])
    decreases |p| - |prefix|
  {
    hide Tree, Heads;
    var h, t := p[|prefix|], Tree(leaves, prefix, n);
    var at := prefix + [h];
    TreeShape(leaves, prefix, n);
    HeadOf(leaves, prefix, p);
    assert ConformsHere(v, t);
    assert FieldConforms(h, v.fields[h], t);
    var rest := p[|prefix|..];
    assert Keys(rest)[0] == Key(h) && Keys(rest)[1..] == Keys(rest[1..]);
    if at == p {
      assert rest == [h];
    } else {
      assert Below(at, p) by {
        assert p[..|at|] == at;
      }
      assert rest[1..] == p[|at|..];
      LeafPresent(v.fields[h], leaves, at, n, p);
    }
  }

  lemma HeadOf(leaves: map<Path, Schema>, prefix: Path, p: Path)
    requires p in leaves && Below(prefix, p)
    ensures p[|prefix|] in Heads(leaves, prefix)
  {
  }

  /** A path at which no leaf stands, nor above it. */
  predicate Inside(leaves: map<Path, Schema>, at: Path) {
    forall p :: p in leaves ==> p != at && !Below(p, at)
  }

  predicate LeadsOn(leaves: map<Path, Schema>, at: Path) {
    exists p :: p in leaves && Below(at, p)
  }

  /** Every leaf below `prefix` has a conforming value at its path. */
  ghost predicate LeavesFit(v: Value, leaves: map<Path, Schema>, prefix: Path) {
    forall p :: p in leaves && Below(prefix, p) ==>
      var found := Lookup(v, Keys(p[|prefix|..]));
      found.Some? && Conforms(found.value, leaves[p])
  }

  /** Above the leaves there are only objects, and each of their keys leads on to a leaf. */
  ghost predicate NothingElse(v: Value, leaves: map<Path, Schema>, prefix: Path) {
    forall q: Path :: Inside(leaves, prefix + q) && Lookup(v, Keys(q)).Some? ==>
      Lookup(v, Keys(q)).value.Obj? && (q == [] || LeadsOn(leaves, prefix + q))
  }

  lemma LookupKeys(v: Value, h: string, q: Path)
    ensures Lookup(v, Keys([h] + q)) == if v.Obj? && h in v.fields then Lookup(v.fields[h], Keys(q)) else None
  {
    assert Keys([h] + q)[0] == Key(h) && Keys([h] + q)[1..] == Keys(q);
  }

  /**
   * The schema derived from the leaves accepts exactly the objects with conforming values at the leaves and nothing
   * else.
   */
  lemma {:induction false} TreeAccepts(v: Value, leaves: map<Path, Schema>, prefix: Path, n: nat)
    requires Within(leaves, n) && |prefix| <= n && PrefixFree(leaves.Keys) && Inside(leaves, prefix)
    ensures Conforms(v, Tree(leaves, prefix, n)) <==> LeavesFit(v, leaves, prefix) && NothingElse(v, leaves, prefix)
    decreases n - |prefix|
  {
    hide Conforms, Tree, LeavesFit, NothingElse, Heads;
    if Conforms(v, Tree(leaves, prefix, n)) {
      Accepted(v, leaves, prefix, n);
    }
    if LeavesFit(v, leaves, prefix) && NothingElse(v, leaves, prefix) {
      Acceptable(v, leaves, prefix, n);
    }
  }

  lemma {:induction false} Accepted(v: Value, leaves: map<Path, Schema>, prefix: Path, n: nat)
    requires Within(leaves, n) && |prefix| <= n && PrefixFree(leaves.Keys) && Inside(leaves, prefix)
    requires Conforms(v, Tree(leaves, prefix, n))
    ensures LeavesFit(v, leaves, prefix) && NothingElse(v, leaves, prefix)
    decreases n - |prefix|, 0
  {
    hide Tree, Heads;
    forall p | p in leaves && Below(prefix, p)
      ensures var found := Lookup(v, Keys(p[|prefix|..])); found.Some? && Conforms(found.value, leaves[p])
    {
      LeafPresent(v, leaves, prefix, n, p);
    }
    var t := Tree(leaves, prefix, n);
    TreeShape(leaves, prefix, n);
    assert ConformsHere(v, t);
    forall q: Path | Inside(leaves, prefix + q) && Lookup(v, Keys(q)).Some?
      ensures Lookup(v, Keys(q)).value.Obj? && (q == [] || LeadsOn(leaves, prefix + q))
    {
      if q != [] {
        var h := q[0];
        assert q == [h] + q[1..];
        LookupKeys(v, h, q[1..]);
        assert FieldConforms(h, v.fields[h], t);
        AcceptedBelow(v.fields[h], leaves, prefix, n, h, q[1..]);
      } else {
        assert Keys(q) == [];
      }
    }
  }

  /** One key down. */
  lemma {:induction false} AcceptedBelow(v: Value, leaves: map<Path, Schema>, prefix: Path, n: nat, h: string, q: Path)
    requires Within(leaves, n) && |prefix| < n && PrefixFree(leaves.Keys) && Inside(leaves, prefix)
              && h in Heads(leaves, prefix)
    requires Conforms(v, Level(leaves, prefix + [h], n)) && Inside(leaves, prefix + ([h] + q))
              && Lookup(v, Keys(q)).Some?
    ensures Lookup(v, Keys(q)).value.Obj? && LeadsOn(leaves, prefix + ([h] + q))
    decreases n - |prefix| - 1, 1
  {
    hide Tree, Heads, Conforms;
    var at := prefix + [h];
    assert prefix + ([h] + q) == at + q;
    InsideAbove(leaves, at, q);
    Accepted(v, leaves, at, n);
    if q == [] {
      assert at + q == at;
      HeadBelow(leaves, prefix, h);
    }
  }

  lemma InsideAbove(leaves: map<Path, Schema>, at: Path, q: Path)
    requires Inside(leaves, at + q)
    ensures Inside(leaves, at)
  {
    assert q == [] ==> at + q == at;
    forall p | p in leaves
      ensures p != at && !Below(p, at)
    {
      assert |p| <= |at| ==> (at + q)[..|p|] == at[..|p|];
    }
  }

  lemma {:induction false} Acceptable(v: Value, leaves: map<Path, Schema>, prefix: Path, n: nat)
    requires Within(leaves, n) && |prefix| <= n && PrefixFree(leaves.Keys) && Inside(leaves, prefix)
    requires LeavesFit(v, leaves, prefix) && NothingElse(v, leaves, prefix)
    ensures Conforms(v, Tree(leaves, prefix, n))
    decreases n - |prefix|, 0
  {
    hide Tree, Heads, Below, Conforms, LeavesFit, NothingElse;
    var t := Tree(leaves, prefix, n);
    TreeShape(leaves, prefix, n);
    TopIsObject(v, leaves, prefix);
    forall h | h in Heads(leaves, prefix)
      ensures h in v.fields && Conforms(v.fields[h], Level(leaves, prefix + [h], n))
    {
      AcceptableBelow(v, leaves, prefix, n, h);
    }
    forall h | h in v.fields
      ensures h in Heads(leaves, prefix)
    {
      KeyLeadsOn(v, leaves, prefix, h);
    }
    ObjectAccepts(v, t.properties.of, t.required, None);
  }

  lemma TopIsObject(v: Value, leaves: map<Path, Schema>, prefix: Path)
    requires Inside(leaves, prefix) && NothingElse(v, leaves, prefix)
    ensures v.Obj?
  {
    assert prefix + [] == prefix && Keys([]) == [];
    assert Lookup(v, Keys([])) == Some(v);
  }

  lemma KeyLeadsOn(v: Value, leaves: map<Path, Schema>, prefix: Path, h: string)
    requires Inside(leaves, prefix) && NothingElse(v, leaves, prefix) && v.Obj? && h in v.fields
    ensures h in Heads(leaves, prefix)
  {
    hide Heads;
    var at := prefix + [h];
    HeadBelow(leaves, prefix, h);
    LookupKeys(v, h, []);
    assert [h] + [] == [h] && Keys([]) == [];
    if at !in leaves {
      InsideNext(leaves, prefix, h);
    }
  }

  lemma {:induction false} AcceptableBelow(v: Value, leaves: map<Path, Schema>, prefix: Path, n: nat, h: string)
    requires Within(leaves, n) && |prefix| < n && PrefixFree(leaves.Keys) && Inside(leaves, prefix) && v.Obj?
              && h in Heads(leaves, prefix)
    requires LeavesFit(v, leaves, prefix) && NothingElse(v, leaves, prefix)
    ensures h in v.fields && Conforms(v.fields[h], Level(leaves, prefix + [h], n))
    decreases n - |prefix| - 1, 1
  {
    hide Tree, Conforms;
    var at := prefix + [h];
    var p :| p in leaves && Below(prefix, p) && p[|prefix|] == h;
    assert p[|prefix|..] == [h] + p[|at|..];
    LookupKeys(v, h, p[|at|..]);
    if at in leaves {
      assert Below(prefix, at) && at[|prefix|..] == [h] + [];
      LookupKeys(v, h, []);
      assert Keys([]) == [];
    } else {
      InsideNext(leaves, prefix, h);
      HeadBelow(leaves, prefix, h);
      DownOne(v, leaves, prefix, h);
      Acceptable(v.fields[h], leaves, at, n);
    }
  }

  lemma InsideNext(leaves: map<Path, Schema>, prefix: Path, h: string)
    requires Inside(leaves, prefix) && prefix + [h] !in leaves
    ensures Inside(leaves, prefix + [h])
  {
    forall p | p in leaves
      ensures !Below(p, prefix + [h])
    {
      assert |p| <= |prefix| ==> (prefix + [h])[..|p|] == prefix[..|p|];
    }
  }

  /** What holds of an object below `prefix` holds of its field one key down. */
  lemma DownOne(v: Value, leaves: map<Path, Schema>, prefix: Path, h: string)
    requires v.Obj? && h in v.fields
    ensures LeavesFit(v, leaves, prefix) ==> LeavesFit(v.fields[h], leaves, prefix + [h])
    ensures NothingElse(v, leaves, prefix) && LeadsOn(leaves, prefix + [h]) ==>
              NothingElse(v.fields[h], leaves, prefix + [h])
  {
    LeavesDown(v, leaves, prefix, h);
    ElseDown(v, leaves, prefix, h);
  }

  lemma LeavesDown(v: Value, leaves: map<Path, Schema>, prefix: Path, h: string)
    requires v.Obj? && h in v.fields
    ensures LeavesFit(v, leaves, prefix) ==> LeavesFit(v.fields[h], leaves, prefix + [h])
  {
    hide Conforms, Lookup;
    var at := prefix + [h];
    if LeavesFit(v, leaves, prefix) {
      forall p | p in leaves && Below(at, p)
        ensures var found := Lookup(v.fields[h], Keys(p[|at|..])); found.Some? && Conforms(found.value, leaves[p])
      {
        BelowHead(prefix, h, p);
        assert p[|prefix|..] == [h] + p[|at|..];
        LookupKeys(v, h, p[|at|..]);
      }
    }
  }

  lemma ElseDown(v: Value, leaves: map<Path, Schema>, prefix: Path, h: string)
    requires v.Obj? && h in v.fields
    ensures NothingElse(v, leaves, prefix) && LeadsOn(leaves, prefix + [h]) ==>
              NothingElse(v.fields[h], leaves, prefix + [h])
  {
    hide Lookup, Below, LeadsOn, Inside;
    var at := prefix + [h];
    if NothingElse(v, leaves, prefix) && LeadsOn(leaves, at) {
      forall q: Path | Inside(leaves, at + q) && Lookup(v.fields[h], Keys(q)).Some?
        ensures Lookup(v.fields[h], Keys(q)).value.Obj? && (q == [] || LeadsOn(leaves, at + q))
      {
        LookupKeys(v, h, q);
        assert prefix + ([h] + q) == at + q;
      }
    }
  }
}
