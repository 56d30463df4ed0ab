/** The HTTP route table: what a route matches and captures, and when two routes conflict. */
module RouteTable {
  import opened Wrappers

  datatype QueryKind = Required(value: Option<string>, capture: bool)
    | Optional(value: Option<string>, capture: bool) | Forbidden

  datatype QuerySpec = QuerySpec(name: string, kind: QueryKind)

  datatype ContentType = Json | TextPlain

  datatype Route = Route(verb: string, path: string, query: seq<QuerySpec>, contentType: Option<ContentType>)

  datatype Request = Request(verb: string, path: string, query: map<string, string>)

  // ---- Paths ----------------------------------------------------------------------------------------------------

  function SplitSlashes(s: string): (r: seq<string>)
    ensures r != [] && forall i :: 0 <= i < |r| ==> '/' !in r[i]
  {
    if s == "" then [""] else
    var rest := SplitSlashes(s[1..]);
    if s[0] == '/' then [""] + rest else [[s[0]] + rest[0]] + rest[1..]
  }

  predicate Clean(part: string) {
    part != "" && '/' !in part
  }

  function NonEmpty(parts: seq<string>): (r: seq<string>)
    requires forall i :: 0 <= i < |parts| ==> '/' !in parts[i]
    ensures forall i :: 0 <= i < |r| ==> Clean(r[i])
  {
    if parts == [] then [] else (if parts[0] == "" then [] else [parts[0]]) + NonEmpty(parts[1..])
  }

  /** The segments of a path; empty ones do not count. */
  function Segments(path: string): (r: seq<string>)
    ensures forall i :: 0 <= i < |r| ==> Clean(r[i])
  {
    NonEmpty(SplitSlashes(path))
  }

  predicate IsPlaceholder(s: string) {
    "{" <= s && s[|s| - 1] == '}'
  }

  lemma PlaceholderLong(s: string)
    requires IsPlaceholder(s)
    ensures |s| >= 2
  {
    assert s[0] == '{';
  }

  /** The name between the braces; empty for an anonymous placeholder. */
  function Inner(s: string): string
    requires IsPlaceholder(s)
  {
    PlaceholderLong(s);
    s[1..|s| - 1]
  }

  /** A path with the names of its placeholders struck out. */
  function PathStructure(path: string): (r: seq<string>)
    ensures |r| == |Segments(path)|
  {
    var segs := Segments(path);
    seq(|segs|, i requires 0 <= i < |segs| => if IsPlaceholder(segs[i]) then "{}" else segs[i])
  }

  datatype PathSegment = Literal(text: string) | Param(name: string) | Anonymous

  function Compile(s: string): PathSegment {
    if !IsPlaceholder(s) then Literal(s) else if Inner(s) == "" then Anonymous else Param(Inner(s))
  }

  /** Braces around a name capture under that name, empty ones capture nothing, and anything else stands for itself. */
  lemma CompileExactly(s: string, n: string)
    ensures Compile(s) == Param(n) <==> n != "" && s == "{" + n + "}"
    ensures Compile(s) == Anonymous <==> s == "{}"
    ensures Compile(s) == Literal(n) <==> n == s && !exists m: string :: s == "{" + m + "}"
  {
    if IsPlaceholder(s) {
      assert s == "{" + Inner(s) + "}";
    }
    if s == "{" + n + "}" {
      assert s[0] == '{' && "{" <= s && s[|s| - 1] == '}';
      assert Inner(s) == n;
    }
    if m: string :| s == "{" + m + "}" {
      assert s[0] == '{' && s[|s| - 1] == '}';
    }
  }

  predicate SegmentMatches(seg: PathSegment, part: string) {
    seg.Literal? ==> part == seg.text
  }

  predicate PathMatches(pattern: string, path: string) {
    var segs, parts := Segments(pattern), Segments(path);
    |segs| == |parts| && forall i :: 0 <= i < |segs| ==> SegmentMatches(Compile(segs[i]), parts[i])
  }

  // ---- Every list of non-empty parts is the segments of some path -------------------------------------------------

  function Join(parts: seq<string>): string {
    if parts == [] then "" else "/" + parts[0] + Join(parts[1..])
  }

  lemma {:induction false} SplitPart(part: string, s: string)
    requires '/' !in part && (s == "" || s[0] == '/')
    ensures SplitSlashes(part + s) == [part] + SplitSlashes(s)[1..]
  {
    if part == "" {
      assert part + s == s;
    } else {
      assert (part + s)[1..] == part[1..] + s;
      SplitPart(part[1..], s);
      assert [part[0]] + part[1..] == part;
    }
  }

  lemma {:induction false} SegmentsOfJoin(parts: seq<string>)
    requires forall i :: 0 <= i < |parts| ==> Clean(parts[i])
    ensures Segments(Join(parts)) == parts
  {
    if parts == [] {
      assert SplitSlashes("") == [""] && NonEmpty([""]) == [];
    } else {
      hide NonEmpty, SplitSlashes;
      var part, tail := parts[0], Join(parts[1..]);
      SegmentsOfJoin(parts[1..]);
      assert Clean(parts[0]);
      assert Join(parts) == "/" + (part + tail);
      SplitSlash(part + tail);
      SplitPart(part, tail);
      var rest := SplitSlashes(tail)[1..];
      assert SplitSlashes(Join(parts)) == [""] + ([part] + rest);
      TailSegments(tail);
      DropEmpty([part] + rest);
      KeepPart(part, rest);
    }
  }

  lemma {:induction false} SplitAtSlash(a: string, b: string)
    ensures SplitSlashes(a + "/" + b) == SplitSlashes(a) + SplitSlashes(b)
  {
    if a == "" {
      assert a + "/" + b == "/" + b;
      SplitSlash(b);
    } else {
      assert (a + "/" + b)[1..] == a[1..] + "/" + b;
      SplitAtSlash(a[1..], b);
    }
  }

  lemma {:induction false} NonEmptyJoins(a: seq<string>, b: seq<string>)
    requires forall part :: part in a + b ==> '/' !in part
    ensures NonEmpty(a + b) == NonEmpty(a) + NonEmpty(b)
  {
    if a == [] {
      assert a + b == b;
    } else {
      assert (a + b)[1..] == a[1..] + b;
      NonEmptyJoins(a[1..], b);
    }
  }

  /** A slash parts the segments before it from those behind it; what holds no slash is one segment, or none. */
  lemma SegmentsSplit(a: string, b: string)
    ensures Segments(a + "/" + b) == Segments(a) + Segments(b)
    ensures '/' !in a ==> Segments(a) == if a == "" then [] else [a]
  {
    SplitAtSlash(a, b);
    NonEmptyJoins(SplitSlashes(a), SplitSlashes(b));
    if '/' !in a {
      SplitPart(a, "");
      assert a + "" == a && SplitSlashes("")[1..] == [];
      assert NonEmpty([a]) == if a == "" then [] else [a];
    }
  }

  lemma SplitSlash(s: string)
    ensures SplitSlashes("/" + s) == [""] + SplitSlashes(s)
  {
    assert ("/" + s)[1..] == s;
  }

  lemma DropEmpty(parts: seq<string>)
    requires forall i :: 0 <= i < |parts| ==> '/' !in parts[i]
    ensures NonEmpty([""] + parts) == NonEmpty(parts)
  {
    assert ([""] + parts)[1..] == parts;
  }

  lemma KeepPart(part: string, parts: seq<string>)
    requires Clean(part) && forall i :: 0 <= i < |parts| ==> '/' !in parts[i]
    ensures NonEmpty([part] + parts) == [part] + NonEmpty(parts)
  {
    assert ([part] + parts)[1..] == parts;
  }

  lemma TailSegments(tail: string)
    requires tail == "" || tail[0] == '/'
    ensures Segments(tail) == NonEmpty(SplitSlashes(tail)[1..])
  {
    DropEmpty(SplitSlashes(tail)[1..]);
    assert SplitSlashes(tail) == [""] + SplitSlashes(tail)[1..];
  }

  /** A part that segment `s` matches, different from `other`. */
  function Example(s: string, other: string): (r: string)
    requires Clean(s)
    ensures Clean(r) && SegmentMatches(Compile(s), r)
    ensures IsPlaceholder(s) ==> r != other
  {
    if !IsPlaceholder(s) then s else if other == "a" then "b" else "a"
  }

  /** A path matched by `a` whose segments differ where they can from those of `b`. */
  lemma Examples(a: string, b: string) returns (path: string)
    ensures PathMatches(a, path)
    ensures |Segments(path)| == |Segments(a)|
    ensures forall i :: 0 <= i < |Segments(a)| && i < |Segments(b)| ==>
              Segments(path)[i] == Example(Segments(a)[i], Segments(b)[i])
  {
    var segs, others := Segments(a), Segments(b);
    var parts := seq(|segs|, i requires 0 <= i < |segs| => Example(segs[i], if i < |others| then others[i] else ""));
    path := Join(parts);
    SegmentsOfJoin(parts);
  }

  /** Equal structures mean the same set of paths, and different ones different sets. */
  lemma SameStructureSamePaths(a: string, b: string)
    ensures PathStructure(a) == PathStructure(b) <==> forall path :: PathMatches(a, path) <==> PathMatches(b, path)
  {
    if PathStructure(a) == PathStructure(b) {
      forall path
        ensures PathMatches(a, path) <==> PathMatches(b, path)
      {
        if PathMatches(a, path) {
          StructureDecides(a, b, path);
        }
        if PathMatches(b, path) {
          StructureDecides(b, a, path);
        }
      }
    } else {
      TellApart(a, b);
    }
  }

  lemma StructureDecides(a: string, b: string, path: string)
    requires PathStructure(a) == PathStructure(b) && PathMatches(a, path)
    ensures PathMatches(b, path)
  {
    var x, y, parts := Segments(a), Segments(b), Segments(path);
    assert |x| == |PathStructure(a)| == |y|;
    forall i | 0 <= i < |y|
      ensures SegmentMatches(Compile(y[i]), parts[i])
    {
      assert PathStructure(a)[i] == PathStructure(b)[i];
      assert SegmentMatches(Compile(x[i]), parts[i]);
      assert IsPlaceholder("{}");
    }
  }

  lemma TellApart(a: string, b: string)
    requires PathStructure(a) != PathStructure(b)
    ensures exists path :: PathMatches(a, path) != PathMatches(b, path)
  {
    var x, y := Segments(a), Segments(b);
    var p := Examples(a, b);
    var q := Examples(b, a);
    if |x| == |y| {
      var i :| 0 <= i < |x| && PathStructure(a)[i] != PathStructure(b)[i];
      if IsPlaceholder(x[i]) {
        assert Segments(p)[i] != y[i];
        assert !SegmentMatches(Compile(y[i]), Segments(p)[i]);
        assert !PathMatches(b, p);
      } else {
        assert Segments(q)[i] != x[i];
        assert !SegmentMatches(Compile(x[i]), Segments(q)[i]);
        assert !PathMatches(a, q);
      }
    } else {
      assert !PathMatches(b, p);
    }
  }

  // ---- Query parameters -------------------------------------------------------------------------------------------

  predicate Meets(spec: QuerySpec, query: map<string, string>) {
    match spec.kind
    case Forbidden => spec.name !in query
    case Required(value, _) => spec.name in query && (value.Some? ==> query[spec.name] == value.value)
    case Optional(value, _) => spec.name in query && value.Some? ==> query[spec.name] == value.value
  }

  predicate Matches(route: Route, req: Request) {
    && req.verb == route.verb
    && PathMatches(route.path, req.path)
    && forall i :: 0 <= i < |route.query| ==> Meets(route.query[i], req.query)
  }

  predicate KindsAreExclusive(a: QueryKind, b: QueryKind) {
    || (a.Forbidden? && b.Required?)
    || (a.Required? && b.Forbidden?)
    || (a.Required? && b.Required? && a.value.Some? && b.value.Some? && a.value != b.value)
  }

  /** A map from names to kinds. */
  function KindMap(specs: seq<QuerySpec>): (m: map<string, QueryKind>)
    ensures forall n :: n in m <==> exists i :: 0 <= i < |specs| && specs[i].name == n
    ensures forall n :: n in m ==> exists i :: 0 <= i < |specs| && specs[i] == QuerySpec(n, m[n])
  {
    if specs == [] then map[] else
    var last := specs[|specs| - 1];
    var before := KindMap(specs[..|specs| - 1]);
    assert forall i :: 0 <= i < |specs| - 1 ==> specs[..|specs| - 1][i] == specs[i];
    before[last.name := last.kind]
  }

  /** Of entries with the same name the last counts. */
  lemma {:induction false} LastCounts(specs: seq<QuerySpec>, i: nat)
    requires i < |specs| && forall j :: i < j < |specs| ==> specs[j].name != specs[i].name
    ensures specs[i].name in KindMap(specs) && KindMap(specs)[specs[i].name] == specs[i].kind
    decreases |specs|
  {
    if i < |specs| - 1 {
      var before := specs[..|specs| - 1];
      assert before[i] == specs[i] && specs[|specs| - 1].name != specs[i].name;
      LastCounts(before, i);
    }
  }

  /** Some name is required by one route and excluded by the other, as far as the check looks. */
  predicate ExclusiveSpecs(a: seq<QuerySpec>, b: seq<QuerySpec>) {
    exists j :: 0 <= j < |b| && b[j].name in KindMap(a) && KindsAreExclusive(KindMap(a)[b[j].name], b[j].kind)
  }

  method QuerySpecsDisjoint(a: seq<QuerySpec>, b: seq<QuerySpec>) returns (disjoint: bool)
    ensures disjoint <==> ExclusiveSpecs(a, b)
  {
    var m := KindMap(a);
    for j := 0 to |b|
      invariant forall k :: 0 <= k < j ==> !(b[k].name in m && KindsAreExclusive(m[b[k].name], b[k].kind))
    {
      if b[j].name in m && KindsAreExclusive(m[b[j].name], b[j].kind) {
        return true;
      }
    }
    disjoint := false;
  }

  /** Routes of one method, path structure and content type that the query parameters do not keep apart. */
  predicate Conflict(a: Route, b: Route) {
    && a.verb == b.verb && PathStructure(a.path) == PathStructure(b.path) && a.contentType == b.contentType
    && !ExclusiveSpecs(a.query, b.query)
  }

  /** The first conflicting pair, if any. */
  method FindConflict(routes: seq<Route>) returns (r: Option<(nat, nat)>)
    ensures r.None? <==> forall i, j :: 0 <= i < j < |routes| ==> !Conflict(routes[i], routes[j])
    ensures r.Some? ==> r.value.0 < r.value.1 < |routes| && Conflict(routes[r.value.0], routes[r.value.1])
  {
    for i := 0 to |routes|
      invariant forall k, l :: 0 <= k < i && k < l < |routes| ==> !Conflict(routes[k], routes[l])
    {
      for j := i + 1 to |routes|
        invariant forall k, l :: 0 <= k < i && k < l < |routes| ==> !Conflict(routes[k], routes[l])
        invariant forall l :: i < l < j ==> !Conflict(routes[i], routes[l])
      {
        if routes[i].verb == routes[j].verb && PathStructure(routes[i].path) == PathStructure(routes[j].path)
           && routes[i].contentType == routes[j].contentType {
          var disjoint := QuerySpecsDisjoint(routes[i].query, routes[j].query);
          if !disjoint {
            return Some((i, j));
          }
        }
      }
    }
    r := None;
  }

  // ---- What conflict detection is worth -------------------------------------------------------------------------

  /** Exclusive kinds are never met together. */
  lemma ExclusiveNeverMeet(n: string, a: QueryKind, b: QueryKind, query: map<string, string>)
    requires KindsAreExclusive(a, b)
    ensures !(Meets(QuerySpec(n, a), query) && Meets(QuerySpec(n, b), query))
  {
  }

  /** Two accepted routes of one path structure and content type never match the same request. */
  lemma AcceptedNeverBoth(routes: seq<Route>, i: nat, j: nat, req: Request)
    requires forall k, l :: 0 <= k < l < |routes| ==> !Conflict(routes[k], routes[l])
    requires i < j < |routes|
    requires PathStructure(routes[i].path) == PathStructure(routes[j].path)
    requires routes[i].contentType == routes[j].contentType
    ensures !(Matches(routes[i], req) && Matches(routes[j], req))
  {
    if routes[i].verb != routes[j].verb {
      return;
    }
    var a, b := routes[i].query, routes[j].query;
    assert !Conflict(routes[i], routes[j]);
    var l :| 0 <= l < |b| && b[l].name in KindMap(a) && KindsAreExclusive(KindMap(a)[b[l].name], b[l].kind);
    var k :| 0 <= k < |a| && a[k] == QuerySpec(b[l].name, KindMap(a)[b[l].name]);
    ExclusiveNeverMeet(b[l].name, a[k].kind, b[l].kind, req.query);
  }

  predicate Unique(specs: seq<QuerySpec>) {
    forall i, j :: 0 <= i < j < |specs| ==> specs[i].name != specs[j].name
  }

  /** A fixed value required by one route and a different one allowed by the other: the case the check misses. */
  predicate Missed(a: QueryKind, b: QueryKind) {
    || (a.Required? && b.Optional? && a.value.Some? && b.value.Some? && a.value != b.value)
    || (a.Optional? && b.Required? && a.value.Some? && b.value.Some? && a.value != b.value)
  }

  predicate MissedSpecs(a: seq<QuerySpec>, b: seq<QuerySpec>) {
    exists i, j :: 0 <= i < |a| && 0 <= j < |b| && a[i].name == b[j].name && Missed(a[i].kind, b[j].kind)
  }

  /** One query can meet all of these: a required name is not forbidden too, and its fixed values agree. */
  predicate Consistent(specs: seq<QuerySpec>) {
    forall i, j, k :: 0 <= i < |specs| && 0 <= j < |specs| && 0 <= k < |specs| ==> Agree(specs[i], specs[j], specs[k])
  }

  function Fixed(kind: QueryKind): Option<string> {
    if kind.Forbidden? then None else kind.value
  }

  predicate Agree(x: QuerySpec, y: QuerySpec, z: QuerySpec) {
    x.kind.Required? && x.name == y.name == z.name ==>
      && !y.kind.Forbidden?
      && (Fixed(y.kind).Some? && Fixed(z.kind).Some? ==> Fixed(y.kind) == Fixed(z.kind))
  }

  predicate MeetsAll(specs: seq<QuerySpec>, query: map<string, string>) {
    forall i :: 0 <= i < |specs| ==> Meets(specs[i], query)
  }

  /** The value fixed for a name, if any is. */
  function FixedFor(specs: seq<QuerySpec>, n: string): (r: Option<string>)
    ensures r.Some? ==> exists j :: 0 <= j < |specs| && specs[j].name == n && Fixed(specs[j].kind) == r
    ensures r.None? ==> forall j :: 0 <= j < |specs| && specs[j].name == n ==> Fixed(specs[j].kind).None?
  {
    if specs == [] then None
    else if specs[0].name == n && Fixed(specs[0].kind).Some? then Fixed(specs[0].kind)
    else
      assert forall j :: 0 < j < |specs| ==> specs[1..][j - 1] == specs[j];
      FixedFor(specs[1..], n)
  }

  /** A query with the required names alone, each with the value fixed for it. */
  function Witness(specs: seq<QuerySpec>): map<string, string> {
    map n | n in (set i | 0 <= i < |specs| && specs[i].kind.Required? :: specs[i].name) ::
      var fixed := FixedFor(specs, n); if fixed.Some? then fixed.value else ""
  }

  lemma WitnessMeets(specs: seq<QuerySpec>, j: nat)
    requires Consistent(specs) && j < |specs|
    ensures Meets(specs[j], Witness(specs))
  {
    var n := specs[j].name;
    if n in Witness(specs) {
      var i :| 0 <= i < |specs| && specs[i].kind.Required? && specs[i].name == n;
      assert Agree(specs[i], specs[j], specs[j]);
      var fixed := FixedFor(specs, n);
      if fixed.Some? {
        var k :| 0 <= k < |specs| && specs[k].name == n && Fixed(specs[k].kind) == fixed;
        assert Agree(specs[i], specs[j], specs[k]);
      }
    }
  }

  /** Specifications can be met together exactly when they are consistent. */
  lemma MetExactly(specs: seq<QuerySpec>)
    ensures (exists query :: MeetsAll(specs, query)) <==> Consistent(specs)
  {
    if Consistent(specs) {
      forall j | 0 <= j < |specs|
        ensures Meets(specs[j], Witness(specs))
      {
        WitnessMeets(specs, j);
      }
      assert MeetsAll(specs, Witness(specs));
    }
    if query :| MeetsAll(specs, query) {
      forall i, j, k | 0 <= i < |specs| && 0 <= j < |specs| && 0 <= k < |specs|
        ensures Agree(specs[i], specs[j], specs[k])
      {
        assert Meets(specs[i], query) && Meets(specs[j], query) && Meets(specs[k], query);
      }
    }
  }

  /**
   * Two routes of one path structure can both match a request exactly when they have one method and no name that one
   * of their specifications requires is forbidden by another or given two values.
   */
  lemma OverlapExactly(a: Route, b: Route)
    requires PathStructure(a.path) == PathStructure(b.path)
    ensures (exists req :: Matches(a, req) && Matches(b, req)) <==> a.verb == b.verb && Consistent(a.query + b.query)
  {
    hide PathMatches, PathStructure, Meets, Consistent;
    var both := a.query + b.query;
    MetExactly(both);
    if req :| Matches(a, req) && Matches(b, req) {
      assert MeetsAll(both, req.query);
    }
    if query :| a.verb == b.verb && MeetsAll(both, query) {
      var path := Examples(a.path, a.path);
      StructureDecides(a.path, b.path, path);
      var req := Request(a.verb, path, query);
      assert forall i :: 0 <= i < |a.query| ==> both[i] == a.query[i];
      assert forall i :: 0 <= i < |b.query| ==> both[|a.query| + i] == b.query[i];
      assert Matches(a, req) && Matches(b, req);
    }
  }

  lemma UniqueKind(specs: seq<QuerySpec>, i: nat)
    requires Unique(specs) && i < |specs|
    ensures specs[i].name in KindMap(specs) && KindMap(specs)[specs[i].name] == specs[i].kind
  {
    var n := specs[i].name;
    var j :| 0 <= j < |specs| && specs[j] == QuerySpec(n, KindMap(specs)[n]);
    assert j == i;
  }

  /** Three specifications of one name are at most two different ones. */
  lemma PairsAgree(a: seq<QuerySpec>, b: seq<QuerySpec>, x: QuerySpec, y: QuerySpec, z: QuerySpec)
    requires Unique(a) && Unique(b) && x in a + b && y in a + b && z in a + b
    requires PairsFit(a, b)
    ensures Agree(x, y, z)
  {
    assert x in a || x in b;
    assert y in a || y in b;
    assert z in a || z in b;
  }

  /** No pair of entries of the two lists is exclusive or missed. */
  predicate PairsFit(a: seq<QuerySpec>, b: seq<QuerySpec>) {
    forall i, j :: 0 <= i < |a| && 0 <= j < |b| && a[i].name == b[j].name ==>
      !KindsAreExclusive(a[i].kind, b[j].kind) && !Missed(a[i].kind, b[j].kind)
  }

  lemma FitUnlessMissed(a: seq<QuerySpec>, b: seq<QuerySpec>)
    requires Unique(a)
    ensures PairsFit(a, b) <==> !ExclusiveSpecs(a, b) && !MissedSpecs(a, b)
  {
    hide KindsAreExclusive, Missed, Unique;
    forall i | 0 <= i < |a|
      ensures a[i].name in KindMap(a) && KindMap(a)[a[i].name] == a[i].kind
    {
      UniqueKind(a, i);
    }
  }

  lemma ConsistentPairs(a: seq<QuerySpec>, b: seq<QuerySpec>, i: nat, j: nat)
    requires Consistent(a + b) && i < |a| && j < |b| && a[i].name == b[j].name
    ensures !KindsAreExclusive(a[i].kind, b[j].kind) && !Missed(a[i].kind, b[j].kind)
  {
    var both := a + b;
    assert both[i] == a[i] && both[|a| + j] == b[j];
    assert Agree(both[i], both[|a| + j], both[i]) && Agree(both[|a| + j], both[i], both[|a| + j]);
  }

  /**
   * Where each of the two names a query parameter once, that is to say the check does not find them exclusive and
   * its blind spot does not apply.
   */
  lemma OverlapUnlessMissed(a: seq<QuerySpec>, b: seq<QuerySpec>)
    requires Unique(a) && Unique(b)
    ensures Consistent(a + b) <==> !ExclusiveSpecs(a, b) && !MissedSpecs(a, b)
  {
    hide ExclusiveSpecs, MissedSpecs, KindsAreExclusive, Missed, Unique, Agree;
    FitUnlessMissed(a, b);
    if Consistent(a + b) {
      forall i, j | 0 <= i < |a| && 0 <= j < |b| && a[i].name == b[j].name
        ensures !KindsAreExclusive(a[i].kind, b[j].kind) && !Missed(a[i].kind, b[j].kind)
      {
        ConsistentPairs(a, b, i, j);
      }
    }
    if PairsFit(a, b) {
      var both := a + b;
      forall i, j, k | 0 <= i < |both| && 0 <= j < |both| && 0 <= k < |both|
        ensures Agree(both[i], both[j], both[k])
      {
        PairsAgree(a, b, both[i], both[j], both[k]);
      }
    }
  }

  /**
   * With distinct names, the check reports two routes just when they have one content type and path structure and some
   * request matches both, or would but for a fixed value missed.
   */
  lemma ConflictExactly(a: Route, b: Route)
    requires Unique(a.query) && Unique(b.query)
    ensures Conflict(a, b) <==>
              && a.contentType == b.contentType && PathStructure(a.path) == PathStructure(b.path)
              && ((exists req :: Matches(a, req) && Matches(b, req))
                  || (a.verb == b.verb && MissedSpecs(a.query, b.query) && !ExclusiveSpecs(a.query, b.query)))
  {
    hide Consistent, MissedSpecs, ExclusiveSpecs, PathStructure, Matches, Unique;
    OverlapUnlessMissed(a.query, b.query);
    if PathStructure(a.path) == PathStructure(b.path) {
      OverlapExactly(a, b);
    }
  }

  // ---- Captures -------------------------------------------------------------------------------------------------

  predicate Captures(kind: QueryKind) {
    !kind.Forbidden? && kind.capture
  }

  /** Placeholders are well formed and named once, and no capturing parameter has the name of one. */
  predicate CapturesValid(path: string, query: seq<QuerySpec>) {
    var segs := Segments(path);
    && (forall i :: 0 <= i < |segs| && IsPlaceholder(segs[i]) ==> '{' !in Inner(segs[i]) && '}' !in Inner(segs[i]))
    && (forall i, j :: 0 <= i < j < |segs| && Compile(segs[i]).Param? ==> Compile(segs[i]) != Compile(segs[j]))
    && (forall i, q :: 0 <= i < |segs| && 0 <= q < |query| && Captures(query[q].kind) ==>
        Compile(segs[i]) != Param(query[q].name))
  }

  method ValidateRouteCaptures(path: string, query: seq<QuerySpec>) returns (r: Result<(), string>)
    ensures r.Success? <==> CapturesValid(path, query)
  {
    hide Segments;
    var segs := Segments(path);
    var names: set<string> := {};
    for i := 0 to |segs|
      invariant forall k :: 0 <= k < i && IsPlaceholder(segs[k]) ==> '{' !in Inner(segs[k]) && '}' !in Inner(segs[k])
      invariant forall k, l :: 0 <= k < l < i && Compile(segs[k]).Param? ==> Compile(segs[k]) != Compile(segs[l])
      invariant forall n :: n in names <==> exists k :: 0 <= k < i && Compile(segs[k]) == Param(n)
    {
      if IsPlaceholder(segs[i]) {
        var inner := Inner(segs[i]);
        if '{' in inner || '}' in inner {
          return Failure("invalid placeholder segment");
        }
        if inner != "" {
          assert Compile(segs[i]) == Param(inner);
          if inner in names {
            ghost var k :| 0 <= k < i && Compile(segs[k]) == Param(inner);
            return Failure("duplicate path capture name");
          }
          names := names + {inner};
        }
      }
    }
    for q := 0 to |query|
      invariant forall i, p :: 0 <= i < |segs| && 0 <= p < q && Captures(query[p].kind) ==>
                  Compile(segs[i]) != Param(query[p].name)
    {
      if Captures(query[q].kind) && query[q].name in names {
        ghost var k :| 0 <= k < |segs| && Compile(segs[k]) == Param(query[q].name);
        return Failure("query-param collides with path capture");
      }
    }
    r := Success(());
  }

  datatype Captured = Captured(path: map<string, string>, query: map<string, string>)

  /** Path captures are inserted over a copy of the query captures. */
  function Merged(c: Captured): map<string, string> {
    c.query + c.path
  }

  /** Each named placeholder has the part it stands for. */
  predicate PathCaptured(segs: seq<string>, parts: seq<string>, m: map<string, string>)
    requires |segs| == |parts|
  {
    && (forall n :: n in m ==> exists i :: 0 <= i < |segs| && Compile(segs[i]) == Param(n))
    && (forall i :: 0 <= i < |segs| && Compile(segs[i]).Param? ==>
        Compile(segs[i]).name in m && m[Compile(segs[i]).name] == parts[i])
  }

  /** Each capturing parameter that is present has its value. */
  predicate QueryCaptured(specs: seq<QuerySpec>, query: map<string, string>, m: map<string, string>) {
    && (forall n :: n in m ==> n in query && m[n] == query[n] && exists i ::
         0 <= i < |specs| && specs[i].name == n && Captures(specs[i].kind))
    && (forall i :: 0 <= i < |specs| && Captures(specs[i].kind) && specs[i].name in query ==> specs[i].name in m)
  }

  datatype QueryOutcome = Match | NoMatch | Capture(value: string)

  function ApplyQuerySpec(spec: QuerySpec, query: map<string, string>): (r: QueryOutcome)
    ensures r.NoMatch? <==> !Meets(spec, query)
    ensures r.Capture? ==> Captures(spec.kind) && spec.name in query && r.value == query[spec.name]
    ensures r.Match? ==> !Captures(spec.kind) || spec.name !in query
  {
    match spec.kind
    case Forbidden => if spec.name in query then NoMatch else Match
    case Required(value, capture) =>
      if spec.name !in query || (value.Some? && query[spec.name] != value.value) then NoMatch
      else if capture then Capture(query[spec.name]) else Match
    case Optional(value, capture) =>
      if spec.name !in query then Match
      else if value.Some? && query[spec.name] != value.value then NoMatch
      else if capture then Capture(query[spec.name]) else Match
  }

  method MatchPath(segs: seq<string>, parts: seq<string>) returns (r: Option<map<string, string>>)
    requires |segs| == |parts|
    requires forall i, j :: 0 <= i < j < |segs| && Compile(segs[i]).Param? ==> Compile(segs[i]) != Compile(segs[j])
    ensures r.Some? <==> forall i :: 0 <= i < |segs| ==> SegmentMatches(Compile(segs[i]), parts[i])
    ensures r.Some? ==> PathCaptured(segs, parts, r.value)
  {
    hide Compile;
    var m: map<string, string> := map[];
    for i := 0 to |segs|
      invariant forall k :: 0 <= k < i ==> SegmentMatches(Compile(segs[k]), parts[k])
      invariant forall n :: n in m ==> exists k :: 0 <= k < i && Compile(segs[k]) == Param(n)
      invariant forall k :: 0 <= k < i && Compile(segs[k]).Param? ==>
                  Compile(segs[k]).name in m && m[Compile(segs[k]).name] == parts[k]
    {
      match Compile(segs[i]) {
        case Literal(text) =>
          if parts[i] != text {
            return None;
          }
        case Param(name) => m := m[name := parts[i]];
        case Anonymous =>
      }
    }
    r := Some(m);
  }

  method MatchRequest(route: Route, req: Request) returns (r: Option<Captured>)
    requires CapturesValid(route.path, route.query)
    ensures r.Some? <==> Matches(route, req)
    ensures r.Some? ==>
              |Segments(route.path)| == |Segments(req.path)|
              && PathCaptured(Segments(route.path), Segments(req.path), r.value.path)
    ensures r.Some? ==> QueryCaptured(route.query, req.query, r.value.query)
  {
    hide Segments, Compile, Meets, PathCaptured;
    if req.verb != route.verb {
      return None;
    }
    var segs, parts := Segments(route.path), Segments(req.path);
    if |parts| != |segs| {
      return None;
    }
    var path := MatchPath(segs, parts);
    if path.None? {
      return None;
    }
    var query: map<string, string> := map[];
    for i := 0 to |route.query|
      invariant forall k :: 0 <= k < i ==> Meets(route.query[k], req.query)
      invariant forall n :: n in query ==>
                  n in req.query && query[n] == req.query[n] && exists k ::
                      0 <= k < i && route.query[k].name == n && Captures(route.query[k].kind)
      invariant forall k :: 0 <= k < i && Captures(route.query[k].kind) && route.query[k].name in req.query ==>
                  route.query[k].name in query
    {
      match ApplyQuerySpec(route.query[i], req.query) {
        case Match =>
        case NoMatch => return None;
        case Capture(value) => query := query[route.query[i].name := value];
      }
    }
    r := Some(Captured(path.value, query));
  }

  /** Merging loses nothing: every path and every query capture of a validated route is there under its own name. */
  lemma MergeKeepsAll(route: Route, req: Request, c: Captured)
    requires CapturesValid(route.path, route.query) && |Segments(route.path)| == |Segments(req.path)|
    requires PathCaptured(Segments(route.path), Segments(req.path), c.path)
              && QueryCaptured(route.query, req.query, c.query)
    ensures forall n :: n in c.path ==> n in Merged(c) && Merged(c)[n] == c.path[n]
    ensures forall n :: n in c.query ==> n in Merged(c) && Merged(c)[n] == c.query[n]
    ensures c.path.Keys !! c.query.Keys
  {
    hide Segments, Compile;
    forall n | n in c.path
      ensures n !in c.query
    {
      var i :| 0 <= i < |Segments(route.path)| && Compile(Segments(route.path)[i]) == Param(n);
    }
  }
}
