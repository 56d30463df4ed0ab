/** Templates as they are written: JSON whose strings hold `{path | default}` tokens. */
module TemplateText {
  import opened Json
  import opened Wrappers
  import opened Texts
  import opened PathSyntax
  import opened Templates
  import opened TemplateLaws
  import InputSchema

  // ---- Tokens -----------------------------------------------------------------------------------------------------

  /** A token without its braces. `json` reads the literal behind the bar. */
  function ReadToken(json: string -> Option<Value>, inner: string): Part {
    var trimmed := Trim(inner);
    match SplitOnce(trimmed, '|')
    case None => (match ReadPath(trimmed) case None => BadToken(None) case Some(path) => Token(Ref(path, None)))
    case Some(cut) =>
      var path, literal := ReadPath(Trim(cut.0)), Trim(cut.1);
      var default := if literal == "" then None else json(literal);
      if path.Some? && default.Some? then Token(Ref(path.value, default)) else BadToken(path)
  }

  /** The path of a token, whatever its default. */
  function TokenPath(inner: string): Option<seq<PathSegment>> {
    var trimmed := Trim(inner);
    ReadPath(Trim(if SplitOnce(trimmed, '|').Some? then SplitOnce(trimmed, '|').value.0 else trimmed))
  }

  /** The inside of a text that is one token. */
  function LoneToken(s: string): Option<string> {
    if |s| >= 3 && s[0] == '{' && s[|s| - 1] == '}' && '{' !in s[1..|s| - 1] && '}' !in s[1..|s| - 1]
    then Some(s[1..|s| - 1]) else None
  }

  // ---- Texts ------------------------------------------------------------------------------------------------------

  /** The bytes of a character in UTF-8 (RFC 3629, section 3), each taken for a character of its own. */
  function Copied(c: char): string {
    var n := c as int;
    if n < 0x80 then [c]
    else if n < 0x800 then [(0xC0 + n / 0x40) as char, (0x80 + n % 0x40) as char]
    else if n < 0x1_0000 then
      [(0xE0 + n / 0x1000) as char, (0x80 + n / 0x40 % 0x40) as char, (0x80 + n % 0x40) as char]
    else
      [(0xF0 + n / 0x4_0000) as char, (0x80 + n / 0x1000 % 0x40) as char, (0x80 + n / 0x40 % 0x40) as char,
       (0x80 + n % 0x40) as char]
  }

  function CopiedAll(s: string): string {
    if s == "" then "" else Copied(s[0]) + CopiedAll(s[1..])
  }

  /** A text cut into tokens, each up to the next closing brace, and characters. */
  function Pieces(json: string -> Option<Value>, s: string): seq<Part>
    decreases |s|
  {
    if s == "" then []
    else if s[0] == '{' && SplitOnce(s[1..], '}').Some? then
      var inner, rest := SplitOnce(s[1..], '}').value.0, SplitOnce(s[1..], '}').value.1;
      SplitOnceBack(s[1..], '}');
      [ReadToken(json, inner)] + Pieces(json, rest)
    else [Chunk(Copied(s[0]))] + Pieces(json, s[1..])
  }

  /** The first piece's text comes first, and its failure fails all. */
  lemma FirstPiece(render: Value -> string, part: Part, rest: seq<Part>, source: Value)
    ensures var piece, after := SubstituteText(render, [part], source), SubstituteText(render, rest, source);
            SubstituteText(render, [part] + rest, source) ==
            if piece.None? || after.None? then None else Some(piece.value + after.value)
  {
    TextsJoin(render, [part], rest, source);
  }

  /** What a turn of the loop puts out for the piece at `i`, and where it goes on. */
  lemma NextPiece(json: string -> Option<Value>, template: string, i: nat)
    requires i < |template|
    ensures var token := if template[i] == '{' then SplitOnce(template[i + 1..], '}') else None;
            if token.Some? then
              && i + 1 + |token.value.0| + 1 <= |template|
              && Pieces(json, template[i..]) ==
                   [ReadToken(json, token.value.0)] + Pieces(json, template[i + 1 + |token.value.0| + 1..])
            else
              Pieces(json, template[i..]) == [Chunk(Copied(template[i]))] + Pieces(json, template[i + 1..])
  {
    hide SplitOnce, ReadToken, Copied;
    var s := template[i..];
    assert s[0] == template[i] && s[1..] == template[i + 1..];
    if s[0] == '{' && SplitOnce(s[1..], '}').Some? {
      var inner, rest := SplitOnce(s[1..], '}').value.0, SplitOnce(s[1..], '}').value.1;
      SplitOnceBack(s[1..], '}');
      assert template[i + 1..] == inner + ['}'] + rest;
      assert template[i + 1 + |inner| + 1..] == rest by {
        assert template[i + 1..][|inner| + 1..] == rest;
        assert template[i + 1 + |inner| + 1..] == template[i + 1..][|inner| + 1..];
      }
    }
  }

  /** Some text in front of what may be one. */
  function InFront(text: string, rest: Option<string>): Option<string> {
    if rest.Some? then Some(text + rest.value) else None
  }

  lemma InFrontJoins(a: string, b: string, rest: Option<string>)
    ensures InFront(a, InFront(b, rest)) == InFront(a + b, rest)
  {
    assert rest.Some? ==> a + (b + rest.value) == a + b + rest.value;
  }

  /** A turn of the loop at a token. */
  lemma TurnAtToken(render: Value -> string, json: string -> Option<Value>, template: string, i: nat, source: Value)
    requires i < |template| && template[i] == '{' && SplitOnce(template[i + 1..], '}').Some?
    ensures var inner := SplitOnce(template[i + 1..], '}').value.0;
            var piece, next := ReadToken(json, inner), i + 1 + |inner| + 1;
            && next <= |template|
            && SubstituteText(render, Pieces(json, template[i..]), source) ==
                 if piece.Token? && Resolve(piece.ref, source).Some? then
                   InFront(RenderScalar(render, Resolve(piece.ref, source).value),
                           SubstituteText(render, Pieces(json, template[next..]), source))
                 else None
  {
    hide SubstituteText, Pieces, ReadToken, SplitOnce, RenderScalar, Resolve;
    var inner := SplitOnce(template[i + 1..], '}').value.0;
    NextPiece(json, template, i);
    FirstPiece(render, ReadToken(json, inner), Pieces(json, template[i + 1 + |inner| + 1..]), source);
    TokenText(render, json, inner, source);
  }

  /** And elsewhere. */
  lemma TurnElsewhere(render: Value -> string, json: string -> Option<Value>, template: string, i: nat, source: Value)
    requires i < |template| && (template[i] == '{' ==> SplitOnce(template[i + 1..], '}').None?)
    ensures SubstituteText(render, Pieces(json, template[i..]), source) ==
            InFront(Copied(template[i]), SubstituteText(render, Pieces(json, template[i + 1..]), source))
  {
    hide SubstituteText, Pieces, ReadToken, SplitOnce, Copied;
    NextPiece(json, template, i);
    FirstPiece(render, Chunk(Copied(template[i])), Pieces(json, template[i + 1..]), source);
    OnePiece(render, source, Copied(template[i]), Ref([], None), None);
  }

  /** The interpolation as it is written, over the text: tokens are read and looked up where they stand. */
  method SubstituteString(render: Value -> string, json: string -> Option<Value>, template: string, source: Value)
    returns (r: Option<string>)
    ensures r == SubstituteText(render, Pieces(json, template), source)
  {
    hide SubstituteText, Pieces, ReadToken, SplitOnce, RenderScalar, Copied, Resolve;
    var out := "";
    var i := 0;
    ghost var all := SubstituteText(render, Pieces(json, template), source);
    assert template[0..] == template && (all.Some? ==> "" + all.value == all.value);
    while i < |template|
      invariant 0 <= i <= |template|
      invariant all == InFront(out, SubstituteText(render, Pieces(json, template[i..]), source))
      decreases |template| - i
    {
      var token := if template[i] == '{' then SplitOnce(template[i + 1..], '}') else None;
      ghost var before, piece := out, "";
      if token.Some? {
        TurnAtToken(render, json, template, i, source);
        var part := ReadToken(json, token.value.0);
        if !part.Token? {
          return None;
        }
        var v := ResolveValue(part.ref, source);
        if v.None? {
          return None;
        }
        piece := RenderScalar(render, v.value);
        out := out + RenderScalar(render, v.value);
        i := i + 1 + |token.value.0| + 1;
      } else {
        TurnElsewhere(render, json, template, i, source);
        piece := Copied(template[i]);
        out := out + Copied(template[i]);
        i := i + 1;
      }
      InFrontJoins(before, piece, SubstituteText(render, Pieces(json, template[i..]), source));
    }
    EmptyText(render, json, source);
    assert template[i..] == "" && out + "" == out;
    r := Some(out);
  }

  lemma EmptyText(render: Value -> string, json: string -> Option<Value>, source: Value)
    ensures SubstituteText(render, Pieces(json, ""), source) == Some("")
  {
  }

  /** A token's text, by its reading. */
  lemma TokenText(render: Value -> string, json: string -> Option<Value>, inner: string, source: Value)
    ensures var piece := ReadToken(json, inner);
            SubstituteText(render, [piece], source) ==
            if piece.Token? && Resolve(piece.ref, source).Some?
            then Some(RenderScalar(render, Resolve(piece.ref, source).value)) else None
  {
    var piece := ReadToken(json, inner);
    OnePiece(render, source, "", if piece.Token? then piece.ref else Ref([], None),
             if piece.BadToken? then piece.path else None);
  }

  // ---- What a text yields -----------------------------------------------------------------------------------------

  /** Characters outside tokens are put out one byte at a time. */
  lemma {:induction false} OutsideTokens(render: Value -> string, json: string -> Option<Value>, before: string,
                                         s: string, source: Value)
    requires '{' !in before
    ensures var after := SubstituteText(render, Pieces(json, s), source);
            SubstituteText(render, Pieces(json, before + s), source) ==
            if after.Some? then Some(CopiedAll(before) + after.value) else None
    decreases |before|
  {
    hide SubstituteText, Pieces, Copied, ReadToken;
    var after := SubstituteText(render, Pieces(json, s), source);
    if before == "" {
      assert before + s == s;
      assert after.Some? ==> "" + after.value == after.value;
    } else {
      OutsideTokens(render, json, before[1..], s, source);
      NextPiece(json, before + s, 0);
      assert (before + s)[0..] == before + s && (before + s)[1..] == before[1..] + s;
      FirstPiece(render, Chunk(Copied(before[0])), Pieces(json, before[1..] + s), source);
      OnePiece(render, source, Copied(before[0]), Ref([], None), None);
      assert after.Some? ==> Copied(before[0]) + (CopiedAll(before[1..]) + after.value) ==
                               CopiedAll(before) + after.value;
    }
  }

  /** A token yields its own text, and the text behind it follows. */
  lemma TokenFirst(render: Value -> string, json: string -> Option<Value>, inner: string, s: string, source: Value)
    requires '}' !in inner
    ensures var token := SubstituteText(render, [ReadToken(json, inner)], source);
            var after := SubstituteText(render, Pieces(json, s), source);
            SubstituteText(render, Pieces(json, "{" + inner + "}" + s), source) ==
            if token.None? || after.None? then None else Some(token.value + after.value)
  {
    hide SubstituteText, Pieces, ReadToken;
    var text := "{" + inner + "}" + s;
    assert text[1..] == inner + ['}'] + s && text[0..] == text;
    SplitOnceAt(inner, '}', s);
    NextPiece(json, text, 0);
    assert text[0 + 1 + |inner| + 1..] == s;
    FirstPiece(render, ReadToken(json, inner), Pieces(json, s), source);
  }

  lemma {:induction false} CopiedLength(s: string)
    ensures |CopiedAll(s)| >= |s|
    ensures |CopiedAll(s)| == |s| ==> CopiedAll(s) == s && forall c :: c in s ==> c as int < 0x80
    ensures (forall c :: c in s ==> c as int < 0x80) ==> CopiedAll(s) == s
  {
    if s != "" {
      assert s[0] in s && forall c :: c in s[1..] ==> c in s;
      CopiedLength(s[1..]);
      assert [s[0]] + s[1..] == s;
    }
  }

  /** A text without tokens is kept if and only if all its characters are ASCII. */
  lemma LiteralKept(render: Value -> string, json: string -> Option<Value>, s: string, source: Value)
    requires '{' !in s
    ensures SubstituteText(render, Pieces(json, s), source) == Some(CopiedAll(s))
    ensures SubstituteText(render, Pieces(json, s), source) == Some(s) <==> forall c :: c in s ==> c as int < 0x80
  {
    hide Copied;
    OutsideTokens(render, json, s, "", source);
    EmptyText(render, json, source);
    assert s + "" == s && CopiedAll(s) + "" == CopiedAll(s);
    CopiedLength(s);
  }

  /** The smallest that is not: the letter a with diaeresis comes out as two characters. */
  lemma LiteralGarbled(render: Value -> string, json: string -> Option<Value>, source: Value)
    ensures SubstituteText(render, Pieces(json, [228 as char]), source) == Some([195 as char, 164 as char])
  {
    var s := [228 as char];
    LiteralKept(render, json, s, source);
    assert s[1..] == "" && CopiedAll(s) == Copied(228 as char) + CopiedAll("");
    assert Copied(228 as char) == [195 as char, 164 as char];
    assert CopiedAll(s) == [195 as char, 164 as char];
  }

  // ---- Whole templates ----------------------------------------------------------------------------------------------

  /** A template as substitution reads it. */
  function ForValues(json: string -> Option<Value>, v: Value): Template {
    match v
    case Str(s) =>
      if LoneToken(s).Some? && ReadToken(json, LoneToken(s).value).Token?
      then PathOnly(ReadToken(json, LoneToken(s).value).ref) else Text(Pieces(json, s))
    case Arr(items) => Array(seq(|items|, i requires 0 <= i < |items| => ForValues(json, items[i])))
    case Obj(fields) => Object(map k | k in fields :: ForValues(json, fields[k]))
    case Bool(b) => BoolLiteral(b)
    case Num(n) => NumLiteral(n)
    case Null => NullLiteral
  }

  /** The same template as schema derivation reads it: a lone token counts whatever its default. */
  function ForSchemas(json: string -> Option<Value>, v: Value): Template {
    match v
    case Str(s) =>
      if LoneToken(s).Some? && TokenPath(LoneToken(s).value).Some?
      then PathOnly(Ref(TokenPath(LoneToken(s).value).value, None)) else Text(Pieces(json, s))
    case Arr(items) => Array(seq(|items|, i requires 0 <= i < |items| => ForSchemas(json, items[i])))
    case Obj(fields) => Object(map k | k in fields :: ForSchemas(json, fields[k]))
    case Bool(b) => BoolLiteral(b)
    case Num(n) => NumLiteral(n)
    case Null => NullLiteral
  }

  /** A token whose default does not parse, alone in a text. */
  predicate Broken(json: string -> Option<Value>, s: string) {
    && LoneToken(s).Some? && TokenPath(LoneToken(s).value).Some?
    && !ReadToken(json, LoneToken(s).value).Token?
  }

  /** Both readings of a token find the same path. */
  lemma SamePath(json: string -> Option<Value>, inner: string)
    ensures InputSchema.PathIn(ReadToken(json, inner)) == TokenPath(inner)
  {
    hide ReadPath, SplitOnce, IsSpace;
    TrimTwice(inner);
  }

  lemma {:induction false} TrimTwice(s: string)
    ensures Trim(Trim(s)) == Trim(s)
    decreases |s|
  {
    hide IsSpace;
    if s != "" && IsSpace(s[0]) {
      TrimTwice(s[1..]);
    } else if s != "" && IsSpace(s[|s| - 1]) {
      TrimTwice(s[..|s| - 1]);
    }
  }

  /** A lone token is the one piece of its text. */
  lemma LonePiece(json: string -> Option<Value>, s: string)
    requires LoneToken(s).Some?
    ensures Pieces(json, s) == [ReadToken(json, LoneToken(s).value)]
  {
    hide ReadToken;
    var inner := LoneToken(s).value;
    assert s[1..] == inner + ['}'] + "";
    SplitOnceAt(inner, '}', "");
    assert Pieces(json, "") == [];
  }

  /**
   * Where the two readings of a text differ, substitution fails; else they have one path, or are the same text.
   */
  lemma TextsAgree(render: Value -> string, json: string -> Option<Value>, s: string, source: Value)
    ensures Broken(json, s) ==> Substitute(render, ForValues(json, Str(s)), source) == None
    ensures !Broken(json, s) ==>
              var a, b := ForValues(json, Str(s)), ForSchemas(json, Str(s));
              a == b || (a.PathOnly? && b.PathOnly? && a.ref.path == b.ref.path)
  {
    hide Pieces, ReadToken, TokenPath, LoneToken, SubstituteText;
    if LoneToken(s).Some? {
      var inner := LoneToken(s).value;
      SamePath(json, inner);
      LonePiece(json, s);
      TokenText(render, json, inner, source);
    }
  }

  lemma TextAgrees(render: Value -> string, json: string -> Option<Value>, s: string, source: Value, schema: Schema)
    requires Substitute(render, ForValues(json, Str(s)), source).Some?
    ensures Derive(ForSchemas(json, Str(s)), schema) == Derive(ForValues(json, Str(s)), schema)
    ensures InputSchema.Refs(ForSchemas(json, Str(s))) == InputSchema.Refs(ForValues(json, Str(s)))
  {
    hide ForValues, ForSchemas, Substitute;
    TextsAgree(render, json, s, source);
  }

  /**
   * If substitution succeeds, the schema derived from the template and the paths it names are those of the template as
   * substitution reads it, so that what holds of the two halves of one template holds of a template as it is written.
   */
  lemma {:induction false} HalvesAgree(render: Value -> string, json: string -> Option<Value>, v: Value, source: Value,
                                       schema: Schema)
    requires Substitute(render, ForValues(json, v), source).Some?
    ensures Derive(ForSchemas(json, v), schema) == Derive(ForValues(json, v), schema)
    ensures InputSchema.Refs(ForSchemas(json, v)) == InputSchema.Refs(ForValues(json, v))
    decreases v
  {
    hide Pieces, ReadToken, TokenPath, LoneToken, SubstituteText, Resolved, Resolve, InputSchema.Refs, Derive;
    match v {
      case Str(s) => TextAgrees(render, json, s, source, schema);
      case Arr(items) =>
        var a, b := ForSchemas(json, v).items, ForValues(json, v).items;
        forall i | 0 <= i < |items|
          ensures Derive(a[i], schema) == Derive(b[i], schema) && InputSchema.Refs(a[i]) == InputSchema.Refs(b[i])
        {
          assert Substitute(render, b[i], source).Some?;
          HalvesAgree(render, json, items[i], source, schema);
        }
        ItemsAgree(a, b, schema);
      case Obj(fields) =>
        var a, b := ForSchemas(json, v).fields, ForValues(json, v).fields;
        forall k | k in fields
          ensures Derive(a[k], schema) == Derive(b[k], schema) && InputSchema.Refs(a[k]) == InputSchema.Refs(b[k])
        {
          assert Substitute(render, b[k], source).Some?;
          HalvesAgree(render, json, fields[k], source, schema);
        }
        FieldsAgree(a, b, schema);
      case _ =>
    }
  }

  lemma ItemsAgree(a: seq<Template>, b: seq<Template>, schema: Schema)
    requires |a| == |b|
    requires forall i :: 0 <= i < |a| ==>
               Derive(a[i], schema) == Derive(b[i], schema) && InputSchema.Refs(a[i]) == InputSchema.Refs(b[i])
    ensures Derive(Array(a), schema) == Derive(Array(b), schema)
    ensures InputSchema.Refs(Array(a)) == InputSchema.Refs(Array(b))
  {
    hide Resolved;
    var x, y := Derive(Array(a), schema), Derive(Array(b), schema);
    if x.Some? && y.Some? {
      assert x.value.prefix.of == y.value.prefix.of;
    }
  }

  lemma FieldsAgree(a: map<string, Template>, b: map<string, Template>, schema: Schema)
    requires a.Keys == b.Keys
    requires forall k :: k in a ==>
               Derive(a[k], schema) == Derive(b[k], schema) && InputSchema.Refs(a[k]) == InputSchema.Refs(b[k])
    ensures Derive(Object(a), schema) == Derive(Object(b), schema)
    ensures InputSchema.Refs(Object(a)) == InputSchema.Refs(Object(b))
  {
    hide Resolved;
    var x, y := Derive(Object(a), schema), Derive(Object(b), schema);
    if x.Some? && y.Some? {
      assert x.value.properties.of == y.value.properties.of;
    }
  }

  /** Soundness of a template as it is written, its schema read one way and its value another. */
  lemma WrittenTemplateSound(render: Value -> string, json: string -> Option<Value>, t: Value, v: Value, s: Schema)
    requires OptionsOnly(s) && Conforms(v, s) && NoDefaults(ForValues(json, t))
    requires Derive(ForSchemas(json, t), s).Some? && Substitute(render, ForValues(json, t), v).Some?
    ensures Conforms(Substitute(render, ForValues(json, t), v).value, Derive(ForSchemas(json, t), s).value) <==>
            AvoidsNulls(ForValues(json, t), v, s)
  {
    HalvesAgree(render, json, t, v, s);
    TemplateSound(render, ForValues(json, t), v, s);
  }

  /** What a parameter's template asks of a body is likewise the same for both readings. */
  lemma SameContributions(render: Value -> string, json: string -> Option<Value>, t: Value, source: Value,
                          param: InputSchema.Param, encoding: map<string, ContentTypeSpec>)
    requires Substitute(render, ForValues(json, t), source).Some?
    ensures InputSchema.Contributions(param, ForSchemas(json, t), encoding) ==
            InputSchema.Contributions(param, ForValues(json, t), encoding)
  {
    HalvesAgree(render, json, t, source, ANY);
    hide Substitute, Derive, InputSchema.Refs, InputSchema.SurfaceSchema;
    if t.Str? {
      TextsAgree(render, json, t.s, source);
      hide ForValues, ForSchemas;
    }
  }
}
