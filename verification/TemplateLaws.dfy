/** What substitution makes of a template, told position by position and piece by piece. */
module TemplateLaws {
  import opened Json
  import opened Wrappers
  import opened Templates

  // ---- Paths ------------------------------------------------------------------------------------------------------

  /** One segment leads to an object's property or an array's item, and to nothing else. */
  lemma LookupOne(v: Value, seg: PathSegment)
    ensures Lookup(v, [seg]) ==
              if seg.Key? && v.Obj? && seg.key in v.fields then Some(v.fields[seg.key])
              else if seg.Index? && v.Arr? && seg.index < |v.items| then Some(v.items[seg.index])
              else None
  {
  }

  /** A path leads where its second half leads from where its first half does. */
  lemma {:induction false} LookupJoins(v: Value, a: seq<PathSegment>, b: seq<PathSegment>)
    ensures Lookup(v, a + b) ==
              match Lookup(v, a)
              case None => None
              case Some(w) => Lookup(w, b)
    decreases |a|
  {
    if a == [] {
      assert a + b == b;
    } else {
      assert (a + b)[1..] == a[1..] + b;
      if Step(v, a[0]).Some? {
        LookupJoins(Step(v, a[0]).value, a[1..], b);
      }
    }
  }

  // ---- Interpolated texts -------------------------------------------------------------------------------------------

  /** What one piece of a text yields: characters as they are, strings verbatim, null as nothing, the rest as JSON. */
  lemma OnePiece(render: Value -> string, source: Value, text: string, ref: Ref, bad: Option<seq<PathSegment>>)
    ensures SubstituteText(render, [Chunk(text)], source) == Some(text)
    ensures SubstituteText(render, [BadToken(bad)], source) == None
    ensures SubstituteText(render, [Token(ref)], source) ==
              var found := if Lookup(source, ref.path).Some? then Lookup(source, ref.path) else ref.default;
              if found.None? then None
              else if found.value.Str? then Some(found.value.s)
              else if found.value.Null? then Some("")
              else Some(render(found.value))
  {
    assert SubstituteText(render, [], source) == Some("");
    assert [Chunk(text)][..0] == [] && [BadToken(bad)][..0] == [] && [Token(ref)][..0] == [];
    assert forall s: string :: "" + s == s;
  }

  /** The text of pieces put together is their texts put together; it fails just when one of them does. */
  lemma {:induction false} TextsJoin(render: Value -> string, a: seq<Part>, b: seq<Part>, source: Value)
    ensures var x, y := SubstituteText(render, a, source), SubstituteText(render, b, source);
            SubstituteText(render, a + b, source) == if x.None? || y.None? then None else Some(x.value + y.value)
    decreases |b|
  {
    var x, y := SubstituteText(render, a, source), SubstituteText(render, b, source);
    if b == [] {
      assert a + b == a;
      assert y == Some("");
      assert x.Some? ==> x.value + "" == x.value;
    } else {
      var front := b[..|b| - 1];
      assert (a + b)[..|a + b| - 1] == a + front;
      TextsJoin(render, a, front, source);
      hide RenderScalar, Resolve;
      var before := SubstituteText(render, front, source);
      assert x.Some? && before.Some? ==>
          forall s: string :: (x.value + before.value) + s == x.value + (before.value + s);
    }
  }

  // ---- Whole templates -----------------------------------------------------------------------------------------

  /** The template at the end of a path into arrays and objects. */
  function TemplateAt(t: Template, path: seq<PathSegment>): Option<Template>
    decreases |path|
  {
    if path == [] then Some(t)
    else if path[0].Key? && t.Object? && path[0].key in t.fields then TemplateAt(t.fields[path[0].key], path[1..])
    else if path[0].Index? && t.Array? && path[0].index < |t.items| then TemplateAt(t.items[path[0].index], path[1..])
    else None
  }

  /** At every path into the template stands, in the result, what the template there yields. */
  lemma {:induction false} ShapeKept(render: Value -> string, t: Template, source: Value, path: seq<PathSegment>)
    requires Substitute(render, t, source).Some? && TemplateAt(t, path).Some?
    ensures Lookup(Substitute(render, t, source).value, path) == Substitute(render, TemplateAt(t, path).value, source)
    ensures var v, u := Lookup(Substitute(render, t, source).value, path), TemplateAt(t, path).value;
            && v.Some?
            && (u.Array? ==> v.value.Arr? && |v.value.items| == |u.items|)
            && (u.Object? ==> v.value.Obj? && v.value.fields.Keys == u.fields.Keys)
    decreases |path|
  {
    if path != [] {
      ShapeKept(render, if path[0].Key? then t.fields[path[0].key] else t.items[path[0].index], source, path[1..]);
    }
  }

  /** A piece of a template that is not made of others yields a value. */
  predicate Yields(render: Value -> string, u: Template, source: Value) {
    match u
    case PathOnly(ref) => Lookup(source, ref.path).Some? || ref.default.Some?
    case Text(parts) => SubstituteText(render, parts, source).Some?
    case _ => true
  }

  ghost predicate AllYield(render: Value -> string, t: Template, source: Value) {
    forall path :: TemplateAt(t, path).Some? ==> Yields(render, TemplateAt(t, path).value, source)
  }

  /** A template yields a value just when each reference and text at any depth does. */
  lemma {:induction false} AllOrNothing(render: Value -> string, t: Template, source: Value)
    ensures Substitute(render, t, source).Some? <==> AllYield(render, t, source)
    decreases t
  {
    hide Yields, SubstituteText, Lookup, AllYield;
    if t.Array? {
      forall i | 0 <= i < |t.items|
        ensures Substitute(render, t.items[i], source).Some? <==> AllYield(render, t.items[i], source)
      {
        AllOrNothing(render, t.items[i], source);
      }
      PartsDecide(render, t, source);
    } else if t.Object? {
      forall k | k in t.fields
        ensures Substitute(render, t.fields[k], source).Some? <==> AllYield(render, t.fields[k], source)
      {
        AllOrNothing(render, t.fields[k], source);
      }
      PartsDecide(render, t, source);
    } else {
      LeafDecides(render, t, source);
    }
  }

  lemma LeafDecides(render: Value -> string, t: Template, source: Value)
    requires !t.Array? && !t.Object?
    ensures Substitute(render, t, source).Some? <==> AllYield(render, t, source)
  {
    assert TemplateAt(t, []) == Some(t);
    assert forall path :: path != [] ==> TemplateAt(t, path).None?;
  }

  /** The pieces of an array or object are the pieces of its items or fields, and itself. */
  lemma PartsDecide(render: Value -> string, t: Template, source: Value)
    requires t.Array? || t.Object?
    ensures AllYield(render, t, source) <==>
            && (t.Array? ==> forall i :: 0 <= i < |t.items| ==> AllYield(render, t.items[i], source))
            && (t.Object? ==> forall k :: k in t.fields ==> AllYield(render, t.fields[k], source))
  {
    hide SubstituteText, Lookup;
    if AllYield(render, t, source) {
      forall i, path: seq<PathSegment> | t.Array? && 0 <= i < |t.items| && TemplateAt(t.items[i], path).Some?
        ensures Yields(render, TemplateAt(t.items[i], path).value, source)
      {
        assert ([Index(i)] + path)[1..] == path;
        assert TemplateAt(t, [Index(i)] + path) == TemplateAt(t.items[i], path);
      }
      forall k, path: seq<PathSegment> | t.Object? && k in t.fields && TemplateAt(t.fields[k], path).Some?
        ensures Yields(render, TemplateAt(t.fields[k], path).value, source)
      {
        assert ([Key(k)] + path)[1..] == path;
        assert TemplateAt(t, [Key(k)] + path) == TemplateAt(t.fields[k], path);
      }
    } else {
      var path: seq<PathSegment> :| TemplateAt(t, path).Some? && !Yields(render, TemplateAt(t, path).value, source);
      var part := if t.Array? then t.items[path[0].index] else t.fields[path[0].key];
      assert TemplateAt(part, path[1..]) == TemplateAt(t, path);
      assert !AllYield(render, part, source);
    }
  }

  /** What stands alone is taken as it is: the value at the path, or else the default, and literals themselves. */
  lemma LeafYields(render: Value -> string, t: Template, source: Value)
    ensures t.PathOnly? ==>
              Substitute(render, t, source) ==
              if Lookup(source, t.ref.path).Some? then Lookup(source, t.ref.path) else t.ref.default
    ensures t.Text? && SubstituteText(render, t.parts, source).Some? ==>
              Substitute(render, t, source) == Some(Str(SubstituteText(render, t.parts, source).value))
    ensures t.BoolLiteral? ==> Substitute(render, t, source) == Some(Bool(t.b))
    ensures t.NumLiteral? ==> Substitute(render, t, source) == Some(Num(t.n))
    ensures t.NullLiteral? ==> Substitute(render, t, source) == Some(Null)
  {
  }
}
