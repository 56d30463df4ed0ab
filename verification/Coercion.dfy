/** Structural alignment of a declared schema with a derived one, and the coercion that makes good on it. */
module Coercion {
  import opened Json
  import opened Templates
  import opened Wrappers

  /** Stringifies wherever the schema says string; descends through properties and items. */
  function Coerce(render: Value -> string, v: Value, s: Schema): Value
    decreases s
  {
    if s.kind == Some(StringKind) && !v.Str? && !v.Null? then Str(render(v))
    else if s.kind == Some(ObjectKind) && v.Obj? && s.properties.Properties? then
      Obj(map k | k in v.fields :: if k in s.properties.of then Coerce(render, v.fields[k], s.properties.of[k])
          else v.fields[k])
    else if s.kind == Some(ArrayKind) && v.Arr? && s.items.Items? then
      Arr(seq(|v.items|, i requires 0 <= i < |v.items| => Coerce(render, v.items[i], s.items.schema)))
    else v
  }

  function CoerceField(render: Value -> string, k: string, v: Value, s: Schema): Value
    requires s.properties.Properties?
  {
    if k in s.properties.of then Coerce(render, v, s.properties.of[k]) else v
  }

  /** The coercion as written: each field and each item is replaced in place. */
  method CoerceValue(render: Value -> string, v: Value, s: Schema) returns (w: Value)
    ensures w == Coerce(render, v, s)
    decreases s, 1
  {
    if s.kind == Some(StringKind) && !v.Str? && !v.Null? {
      return Str(render(v));
    }
    w := v;
    if s.kind == Some(ObjectKind) && v.Obj? && s.properties.Properties? {
      var out := CoerceFields(render, v.fields, s);
      assert out == Coerce(render, v, s).fields;
      w := Obj(out);
    }
    if s.kind == Some(ArrayKind) && v.Arr? && s.items.Items? {
      var out := CoerceItems(render, v.items, s);
      assert out == Coerce(render, v, s).items;
      w := Arr(out);
    }
  }

  method CoerceFields(render: Value -> string, fields: map<string, Value>, s: Schema) returns (out: map<string, Value>)
    requires s.properties.Properties?
    ensures out.Keys == fields.Keys && forall k :: k in out ==> out[k] == CoerceField(render, k, fields[k], s)
    decreases s, 0
  {
    hide Coerce;
    out := fields;
    var rest := fields.Keys;
    while rest != {}
      invariant rest <= fields.Keys && out.Keys == fields.Keys
      invariant forall k :: k in rest ==> out[k] == fields[k]
      invariant forall k :: k in out && k !in rest ==> out[k] == CoerceField(render, k, fields[k], s)
      decreases |rest|
    {
      var k :| k in rest;
      if k in s.properties.of {
        var field := CoerceValue(render, out[k], s.properties.of[k]);
        out := out[k := field];
      }
      rest := rest - {k};
    }
  }

  method CoerceItems(render: Value -> string, items: seq<Value>, s: Schema) returns (out: seq<Value>)
    requires s.items.Items?
    ensures |out| == |items| && forall i :: 0 <= i < |out| ==> out[i] == Coerce(render, items[i], s.items.schema)
    decreases s, 0
  {
    hide Coerce;
    out := items;
    for i := 0 to |out|
      invariant |out| == |items|
      invariant forall j :: 0 <= j < i ==> out[j] == Coerce(render, items[j], s.items.schema)
      invariant forall j :: i <= j < |out| ==> out[j] == items[j]
    {
      var item := CoerceValue(render, out[i], s.items.schema);
      out := out[i := item];
    }
  }

  // ---- Place by place -------------------------------------------------------------------------------------------

  /** The schema of what a segment leads to, where coercion goes on. */
  function Beneath(s: Schema, seg: PathSegment): Option<Schema> {
    match seg
    case Key(k) =>
      if s.kind == Some(ObjectKind) && s.properties.Properties? && k in s.properties.of then Some(s.properties.of[k])
          else None
    case Index(_) => if s.kind == Some(ArrayKind) && s.items.Items? then Some(s.items.schema) else None
  }

  /** The part of a schema that describes the place at the end of a path. */
  function Governing(s: Schema, path: seq<PathSegment>): Option<Schema> {
    if path == [] then Some(s)
    else if Beneath(s, path[0]).Some? then Governing(Beneath(s, path[0]).value, path[1..])
    else None
  }

  /** The schema asks for a text at a place where there is another value. */
  predicate Mismatched(v: Value, s: Schema, path: seq<PathSegment>) {
    && Governing(s, path).Some? && Governing(s, path).value.kind == Some(StringKind)
    && Lookup(v, path).Some? && !Lookup(v, path).value.Str? && !Lookup(v, path).value.Null?
  }

  /** The same scalar, or an object with the same keys, or an array of the same length. */
  predicate SameHead(v: Value, w: Value) {
    if v.Obj? then w.Obj? && w.fields.Keys == v.fields.Keys
    else if v.Arr? then w.Arr? && |w.items| == |v.items|
    else w == v
  }

  /** There, the value's JSON text stands afterwards. */
  lemma {:induction false} TextPutIn(render: Value -> string, v: Value, s: Schema, path: seq<PathSegment>)
    requires Mismatched(v, s, path)
    ensures Lookup(Coerce(render, v, s), path) == Some(Str(render(Lookup(v, path).value)))
    decreases |path|
  {
    if path != [] {
      TextPutIn(render, Step(v, path[0]).value, Beneath(s, path[0]).value, path[1..]);
    }
  }

  /** Everywhere else, unless inside a value replaced so, things stand as they stood. */
  lemma {:induction false} RestKept(render: Value -> string, v: Value, s: Schema, path: seq<PathSegment>)
    requires Lookup(v, path).Some? && forall k :: 0 <= k <= |path| ==> !Mismatched(v, s, path[..k])
    ensures Lookup(Coerce(render, v, s), path).Some?
    ensures SameHead(Lookup(v, path).value, Lookup(Coerce(render, v, s), path).value)
    decreases |path|
  {
    assert path[..0] == [];
    assert !Mismatched(v, s, path[..0]);
    if path != [] {
      var next, t := Step(v, path[0]).value, Beneath(s, path[0]);
      if t.None? {
        assert Step(Coerce(render, v, s), path[0]) == Some(next);
      } else {
        forall k | 0 <= k <= |path| - 1
          ensures !Mismatched(next, t.value, path[1..][..k])
        {
          var q := path[..k + 1];
          assert q[0] == path[0] && q[1..] == path[1..][..k];
          assert !Mismatched(v, s, q);
        }
        assert Step(Coerce(render, v, s), path[0]) == Some(Coerce(render, next, t.value));
        RestKept(render, next, t.value, path[1..]);
      }
    }
  }

  /** Coercing twice is coercing once, for every schema and value. */
  lemma {:induction false} CoerceIdempotent(render: Value -> string, v: Value, s: Schema)
    ensures Coerce(render, Coerce(render, v, s), s) == Coerce(render, v, s)
    decreases s
  {
    var w := Coerce(render, v, s);
    if s.kind == Some(ObjectKind) && v.Obj? && s.properties.Properties? {
      forall k | k in w.fields && k in s.properties.of
        ensures Coerce(render, w.fields[k], s.properties.of[k]) == w.fields[k]
      {
        CoerceIdempotent(render, v.fields[k], s.properties.of[k]);
      }
      assert Coerce(render, w, s).fields == w.fields;
    } else if s.kind == Some(ArrayKind) && v.Arr? && s.items.Items? {
      forall i | 0 <= i < |w.items|
        ensures Coerce(render, w.items[i], s.items.schema) == w.items[i]
      {
        CoerceIdempotent(render, v.items[i], s.items.schema);
      }
      assert Coerce(render, w, s).items == w.items;
    }
  }

  // ---- Alignment ------------------------------------------------------------------------------------------------

  /** Unwrapping leads to the schema itself or to one inside it. */
  lemma UnwrapInside(s: Schema)
    ensures Unwrap(s) == s || Unwrap(s) < s
  {
    if Unwrap(s) != s {
      var arms := s.oneOf;
      assert arms < s && s.oneOf.arms[0] < arms && s.oneOf.arms[1] < arms;
    }
  }

  predicate Align(declared: Schema, derived: Schema)
    decreases declared
  {
    UnwrapInside(declared);
    var d, s := Unwrap(declared), Unwrap(derived);
    && (d.kind.Some? && s.kind.Some? ==> d.kind == s.kind || d.kind == Some(StringKind))
    && (d.kind == Some(ObjectKind) && s.kind == Some(ObjectKind) ==>
          var x := if d.properties.Properties? then d.properties.of else map[];
          var y := if s.properties.Properties? then s.properties.of else map[];
          x.Keys == y.Keys && forall k :: k in y ==> d.properties.Properties? && Align(d.properties.of[k], y[k]))
    && (d.kind == Some(ArrayKind) && s.kind == Some(ArrayKind) ==>
          if d.prefix.Prefix? && s.prefix.Prefix? then
            |d.prefix.of| == |s.prefix.of| && forall i :: 0 <= i < |d.prefix.of| ==>
              Align(d.prefix.of[i], s.prefix.of[i])
          else d.items.Items? && s.items.Items? ==> Align(d.items.schema, s.items.schema))
  }

  /** A position without a kind, such as one whose content type is only known at run time, aligns with any other. */
  lemma UntypedAligns(declared: Schema, derived: Schema)
    requires Unwrap(declared).kind.None? || Unwrap(derived).kind.None?
    ensures Align(declared, derived)
  {
  }

  function Either(a: Schema, b: Schema): Schema {
    ANY.(oneOf := OneOf([a, b]))
  }

  function Field(name: string, s: Schema): Schema {
    ClosedObject(map[name := s], {name})
  }

  /** An option of `s`, or a result of it and some error, whichever way round. */
  predicate Wraps(w: Schema, s: Schema, error: Schema) {
    || w == Either(s, Typed(NullKind)) || w == Either(Typed(NullKind), s)
    || w == Either(Field("ok", s), Field("error", error)) || w == Either(Field("error", error), Field("ok", s))
  }

  /** An option or a result is aligned by its value, on either side. */
  lemma WrappedAlign(declared: Schema, derived: Schema, w: Schema, error: Schema)
    requires Unwrap(declared) == declared && Unwrap(derived) == derived && !IsNullArm(declared) && !IsNullArm(derived)
    ensures Wraps(w, declared, error) ==> (Align(w, derived) <==> Align(declared, derived))
    ensures Wraps(w, derived, error) ==> (Align(declared, w) <==> Align(declared, derived))
  {
    hide Unwrap, Either, Field, Align, IsNullArm;
    WrappedIs(declared, error);
    WrappedIs(derived, error);
    AlignedAlike(w, declared, derived, derived);
    AlignedAlike(declared, declared, w, derived);
  }

  /** Only what a schema unwraps to counts. */
  lemma AlignedAlike(declared: Schema, declared': Schema, derived: Schema, derived': Schema)
    ensures Unwrap(declared) == Unwrap(declared') && Unwrap(derived) == Unwrap(derived') ==>
              (Align(declared, derived) <==> Align(declared', derived'))
  {
    hide Unwrap;
  }

  lemma WrappedIs(s: Schema, error: Schema)
    requires !IsNullArm(s)
    ensures Unwrap(Either(s, Typed(NullKind))) == s && Unwrap(Either(Typed(NullKind), s)) == s
    ensures Unwrap(Either(Field("ok", s), Field("error", error))) == s
    ensures Unwrap(Either(Field("error", error), Field("ok", s))) == s
  {
    var a, b := Field("ok", s), Field("error", error);
    assert a.properties.of.Keys == {"ok"} && b.properties.of.Keys == {"error"};
    assert "ok" != "error";
    assert "ok" in {"ok"} && "ok" !in {"error"};
  }

  // ---- Shapes ---------------------------------------------------------------------------------------------------

  /**
   * A fully typed schema without `oneOf` or null, whose objects list their properties and whose arrays have one item
   * schema or are tuples.
   */
  predicate Plain(s: Schema) {
    && s.kind.Some? && s.kind != Some(NullKind) && s.oneOf.NoOneOf?
    && (s.kind == Some(ObjectKind) ==> s.properties.Properties? && forall k :: k in s.properties.of ==>
        Plain(s.properties.of[k]))
    && (s.kind == Some(ArrayKind) ==>
          if s.prefix.Prefix? then s.items.NoItems? && forall i :: 0 <= i < |s.prefix.of| ==> Plain(s.prefix.of[i])
          else s.items.Items? && Plain(s.items.schema))
  }

  /** Kind, property names, tuple positions and nesting; constraints on size and range do not count. */
  predicate HasShape(v: Value, s: Schema) {
    && s.kind == Some(KindOf(v))
    && (v.Obj? && s.properties.Properties? ==>
          v.fields.Keys == s.properties.of.Keys && forall k :: k in v.fields ==>
            HasShape(v.fields[k], s.properties.of[k]))
    && (v.Arr? && s.prefix.Prefix? ==>
          |v.items| == |s.prefix.of| && forall i :: 0 <= i < |v.items| ==> HasShape(v.items[i], s.prefix.of[i]))
    && (v.Arr? && s.items.Items? ==> forall i :: 0 <= i < |v.items| ==> HasShape(v.items[i], s.items.schema))
  }

  /**
   * Beneath a declared tuple, which coercion does not enter, no kind stands for another; and a tuple is not declared
   * for a list. Alignment does not look into a tuple that is declared as a list, so its positions must align with the
   * item schema besides.
   */
  predicate Steady(declared: Schema, derived: Schema, beneath: bool)
    decreases declared
  {
    && (beneath ==> declared.kind == derived.kind)
    && (declared.kind == Some(ObjectKind) == derived.kind && declared.properties.Properties?
        && derived.properties.Properties? ==>
          forall k :: k in declared.properties.of && k in derived.properties.of ==>
            Steady(declared.properties.of[k], derived.properties.of[k], beneath))
    && (declared.kind == Some(ArrayKind) == derived.kind ==>
          if declared.prefix.Prefix? then
            && derived.prefix.Prefix?
            && forall i :: 0 <= i < |declared.prefix.of| && i < |derived.prefix.of| ==>
                 Steady(declared.prefix.of[i], derived.prefix.of[i], true)
          else if !declared.items.Items? then true
          else if derived.prefix.Prefix? then
            forall i :: 0 <= i < |derived.prefix.of| ==>
              Align(declared.items.schema, derived.prefix.of[i])
                && Steady(declared.items.schema, derived.prefix.of[i], beneath)
          else derived.items.Items? ==> Steady(declared.items.schema, derived.items.schema, beneath))
  }

  /** Beneath a tuple the derived shape is the declared one. */
  lemma {:induction false} SteadyShape(v: Value, declared: Schema, derived: Schema)
    requires Plain(declared) && Plain(derived) && Align(declared, derived) && Steady(declared, derived, true)
              && HasShape(v, derived)
    ensures HasShape(v, declared)
    decreases declared
  {
    if v.Obj? {
      forall k | k in v.fields
        ensures k in declared.properties.of && HasShape(v.fields[k], declared.properties.of[k])
      {
        SteadyShape(v.fields[k], declared.properties.of[k], derived.properties.of[k]);
      }
    } else if v.Arr? {
      forall i | 0 <= i < |v.items|
        ensures declared.prefix.Prefix? ==> |declared.prefix.of| == |v.items|
        ensures HasShape(v.items[i], PositionOf(declared, i))
      {
        SteadyShape(v.items[i], PositionOf(declared, i), PositionOf(derived, i));
      }
    }
  }

  /** The schema of a position of an array. */
  function PositionOf(s: Schema, i: nat): (r: Schema)
    requires s.prefix.Prefix? ==> i < |s.prefix.of|
    requires s.prefix.NoPrefix? ==> s.items.Items?
    ensures r < s
  {
    if s.prefix.Prefix? then
      assert s.prefix.of[i] < s.prefix;
      s.prefix.of[i]
    else s.items.schema
  }

  /** If the schemas align and are steady, coercion turns the derived shape into the declared one. */
  lemma {:induction false} AlignedCoercion(render: Value -> string, v: Value, declared: Schema, derived: Schema)
    requires Plain(declared) && Plain(derived) && Align(declared, derived) && Steady(declared, derived, false)
              && HasShape(v, derived)
    ensures HasShape(Coerce(render, v, declared), declared)
    decreases declared
  {
    var w := Coerce(render, v, declared);
    if declared.kind == Some(ObjectKind) {
      forall k | k in w.fields
        ensures HasShape(w.fields[k], declared.properties.of[k])
      {
        AlignedCoercion(render, v.fields[k], declared.properties.of[k], derived.properties.of[k]);
      }
    } else if declared.kind == Some(ArrayKind) {
      forall i | 0 <= i < |w.items|
        ensures declared.prefix.Prefix? ==> |declared.prefix.of| == |w.items|
        ensures HasShape(w.items[i], PositionOf(declared, i))
      {
        if declared.prefix.Prefix? {
          SteadyShape(v.items[i], declared.prefix.of[i], derived.prefix.of[i]);
        } else {
          AlignedCoercion(render, v.items[i], declared.items.schema, PositionOf(derived, i));
        }
      }
    }
  }

  /** A value of each shape, with one item in every list. */
  function Sample(s: Schema): (v: Value)
    requires Plain(s)
    ensures HasShape(v, s)
  {
    match s.kind.value
    case BooleanKind => Bool(true)
    case NumberKind => Num(Int(0))
    case StringKind => Str("")
    case ArrayKind =>
      if s.prefix.Prefix? then Arr(seq(|s.prefix.of|, i requires 0 <= i < |s.prefix.of| => Sample(s.prefix.of[i])))
      else Arr([Sample(s.items.schema)])
    case ObjectKind => Obj(map k | k in s.properties.of :: Sample(s.properties.of[k]))
  }

  /**
   * A value of the derived shape that tells whether the declared one is reached: a list where a tuple is declared has
   * another length.
   */
  function Probe(declared: Schema, derived: Schema): (v: Value)
    requires Plain(declared) && Plain(derived)
    ensures HasShape(v, derived)
    decreases derived
  {
    if derived.kind == Some(ObjectKind) == declared.kind then
      Obj(map k | k in derived.properties.of ::
            if k in declared.properties.of then Probe(declared.properties.of[k], derived.properties.of[k])
            else Sample(derived.properties.of[k]))
    else if derived.kind == Some(ArrayKind) == declared.kind then
      if derived.prefix.Prefix? then
        Arr(seq(|derived.prefix.of|, i requires 0 <= i < |derived.prefix.of| =>
              if declared.prefix.Prefix? && i >= |declared.prefix.of| then Sample(derived.prefix.of[i])
              else Probe(PositionOf(declared, i), derived.prefix.of[i])))
      else if declared.items.Items? then Arr([Probe(declared.items.schema, derived.items.schema)])
      else if |declared.prefix.of| == 1 then Arr([])
      else Arr([Sample(derived.items.schema)])
    else Sample(derived)
  }

  /** If even the probe has the declared shape uncoerced, the schemas align and agree on every kind. */
  lemma {:induction false} ProbeSteady(declared: Schema, derived: Schema)
    requires Plain(declared) && Plain(derived) && HasShape(Probe(declared, derived), declared)
    ensures Align(declared, derived) && Steady(declared, derived, true)
    decreases declared
  {
    var v := Probe(declared, derived);
    assert HasShape(v, derived);
    if declared.kind == Some(ObjectKind) {
      forall k | k in derived.properties.of
        ensures k in declared.properties.of
        ensures Align(declared.properties.of[k], derived.properties.of[k])
                  && Steady(declared.properties.of[k], derived.properties.of[k], true)
      {
        ProbeSteady(declared.properties.of[k], derived.properties.of[k]);
      }
    } else if declared.kind == Some(ArrayKind) {
      if derived.prefix.Prefix? {
        forall i | 0 <= i < |v.items|
          ensures Align(PositionOf(declared, i), derived.prefix.of[i])
                    && Steady(PositionOf(declared, i), derived.prefix.of[i], true)
        {
          assert v.items[i] == Probe(PositionOf(declared, i), derived.prefix.of[i]);
          ProbeSteady(PositionOf(declared, i), derived.prefix.of[i]);
        }
      } else if declared.items.Items? {
        assert v.items[0] == Probe(declared.items.schema, derived.items.schema);
        ProbeSteady(declared.items.schema, derived.items.schema);
      }
    }
  }

  /** What is steady beneath a tuple is steady anywhere. */
  lemma {:induction false} SteadyBeneath(declared: Schema, derived: Schema)
    requires Steady(declared, derived, true)
    ensures Steady(declared, derived, false)
    decreases declared
  {
    if declared.kind == Some(ObjectKind) && declared.properties.Properties? && derived.properties.Properties? {
      forall k | k in declared.properties.of && k in derived.properties.of
        ensures Steady(declared.properties.of[k], derived.properties.of[k], false)
      {
        SteadyBeneath(declared.properties.of[k], derived.properties.of[k]);
      }
    } else if declared.kind == Some(ArrayKind) && declared.prefix.NoPrefix? && declared.items.Items? {
      if derived.prefix.Prefix? {
        forall i | 0 <= i < |derived.prefix.of|
          ensures Steady(declared.items.schema, derived.prefix.of[i], false)
        {
          SteadyBeneath(declared.items.schema, derived.prefix.of[i]);
        }
      } else if derived.items.Items? {
        SteadyBeneath(declared.items.schema, derived.items.schema);
      }
    }
  }

  /** If coercion turns even the probe into the declared shape, the schemas align and are steady. */
  lemma {:induction false} ProbeAligns(render: Value -> string, declared: Schema, derived: Schema)
    requires Plain(declared) && Plain(derived) && HasShape(Coerce(render, Probe(declared, derived), declared), declared)
    ensures Align(declared, derived) && Steady(declared, derived, false)
    decreases declared
  {
    var v := Probe(declared, derived);
    var w := Coerce(render, v, declared);
    assert HasShape(v, derived);
    if declared.kind == Some(ObjectKind) {
      forall k | k in derived.properties.of
        ensures k in declared.properties.of
        ensures Align(declared.properties.of[k], derived.properties.of[k])
                  && Steady(declared.properties.of[k], derived.properties.of[k], false)
      {
        assert w.fields[k] == CoerceField(render, k, v.fields[k], declared);
        ProbeAligns(render, declared.properties.of[k], derived.properties.of[k]);
      }
    } else if declared.kind == Some(ArrayKind) {
      if declared.prefix.Prefix? {
        assert w == v;
        ProbeSteady(declared, derived);
        SteadyBeneath(declared, derived);
      } else {
        var items := declared.items.schema;
        if derived.prefix.Prefix? {
          forall i | 0 <= i < |derived.prefix.of|
            ensures Align(items, derived.prefix.of[i]) && Steady(items, derived.prefix.of[i], false)
          {
            assert w.items[i] == Coerce(render, v.items[i], items) && v.items[i] == Probe(items, derived.prefix.of[i]);
            ProbeAligns(render, items, derived.prefix.of[i]);
          }
        } else {
          assert w.items[0] == Coerce(render, v.items[0], items) && v.items[0] == Probe(items, derived.items.schema);
          ProbeAligns(render, items, derived.items.schema);
        }
      }
    }
  }

  /**
   * Coercion takes every derived shape to the declared one exactly when the schemas align and are steady. Without
   * tuples alignment alone decides.
   */
  lemma AlignExactly(render: Value -> string, declared: Schema, derived: Schema)
    requires Plain(declared) && Plain(derived)
    ensures Align(declared, derived) && Steady(declared, derived, false)
            <==> forall v :: HasShape(v, derived) ==> HasShape(Coerce(render, v, declared), declared)
    ensures TupleFree(declared) && TupleFree(derived) ==> Steady(declared, derived, false)
  {
    hide Align, HasShape, Coerce, Plain, Probe, Steady;
    TupleFreeSteady(declared, derived);
    if Align(declared, derived) && Steady(declared, derived, false) {
      forall v | HasShape(v, derived)
        ensures HasShape(Coerce(render, v, declared), declared)
      {
        AlignedCoercion(render, v, declared, derived);
      }
    } else {
      var v := Probe(declared, derived);
      if HasShape(Coerce(render, v, declared), declared) {
        ProbeAligns(render, declared, derived);
      }
      assert HasShape(v, derived) && !HasShape(Coerce(render, v, declared), declared);
    }
  }

  predicate TupleFree(s: Schema) {
    && s.prefix.NoPrefix?
    && (s.properties.Properties? ==> forall k :: k in s.properties.of ==> TupleFree(s.properties.of[k]))
    && (s.items.Items? ==> TupleFree(s.items.schema))
  }

  lemma {:induction false} TupleFreeSteady(declared: Schema, derived: Schema)
    ensures TupleFree(declared) && TupleFree(derived) ==> Steady(declared, derived, false)
    decreases declared
  {
    if TupleFree(declared) && TupleFree(derived) {
      if declared.properties.Properties? && derived.properties.Properties? {
        forall k | k in declared.properties.of && k in derived.properties.of
          ensures Steady(declared.properties.of[k], derived.properties.of[k], false)
        {
          TupleFreeSteady(declared.properties.of[k], derived.properties.of[k]);
        }
      }
      if declared.items.Items? && derived.items.Items? {
        TupleFreeSteady(declared.items.schema, derived.items.schema);
      }
    }
  }

  /** The smallest failures: a tuple of text declared for a tuple of another kind, and a tuple declared for a list. */
  lemma TuplesNotCoerced(render: Value -> string, kind: Kind)
    requires kind == BooleanKind || kind == NumberKind
    ensures var declared, derived := TupleOf([Typed(StringKind)]), TupleOf([Typed(kind)]);
            && Plain(declared) && Plain(derived) && Align(declared, derived) && !Steady(declared, derived, false)
            && exists v :: HasShape(v, derived) && !HasShape(Coerce(render, v, declared), declared)
    ensures var declared, derived := TupleOf([Typed(kind)]), ListOf(Typed(kind));
            && Plain(declared) && Plain(derived) && Align(declared, derived) && !Steady(declared, derived, false)
            && exists v :: HasShape(v, derived) && !HasShape(Coerce(render, v, declared), declared)
  {
    assert Plain(Typed(StringKind)) && Plain(Typed(kind)) && Align(Typed(StringKind), Typed(kind));
    assert !Steady(TupleOf([Typed(StringKind)]).prefix.of[0], TupleOf([Typed(kind)]).prefix.of[0], true);
    AlignExactly(render, TupleOf([Typed(StringKind)]), TupleOf([Typed(kind)]));
    AlignExactly(render, TupleOf([Typed(kind)]), ListOf(Typed(kind)));
  }
}
