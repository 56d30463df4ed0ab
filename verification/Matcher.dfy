/** Match patterns: greedy glob matching is exact, and a pattern selects by its five segments. */
module Matcher {
  import opened Texts
  import opened Wrappers

  // ---- What a glob means ------------------------------------------------------------------------------------

  function Stars(p: string): nat {
    if p == "" then 0 else (if p[0] == '*' then 1 else 0) + Stars(p[1..])
  }

  /** The pattern with its stars replaced, left to right. */
  function Fill(p: string, fills: seq<string>): string
    requires |fills| == Stars(p)
  {
    if p == "" then "" else
    if p[0] == '*' then fills[0] + Fill(p[1..], fills[1..]) else [p[0]] + Fill(p[1..], fills)
  }

  /** Some choice of strings for the stars yields the value. */
  ghost predicate Yields(p: string, v: string) {
    exists fills: seq<string> :: |fills| == Stars(p) && Fill(p, fills) == v
  }

  // ---- Strings ------------------------------------------------------------------------------------------------

  predicate OccursAt(s: string, t: string, i: nat) {
    i + |t| <= |s| && s[i..i + |t|] == t
  }

  /** The leftmost occurrence. */
  method Find(s: string, t: string) returns (r: Option<nat>)
    ensures r.Some? ==> OccursAt(s, t, r.value) && forall j: nat :: j < r.value ==> !OccursAt(s, t, j)
    ensures r.None? ==> forall j: nat :: !OccursAt(s, t, j)
  {
    for i := 0 to |s| + 1
      invariant forall j: nat :: j < i ==> !OccursAt(s, t, j)
    {
      if OccursAt(s, t, i) {
        return Some(i);
      }
    }
    r := None;
  }

  /** The pieces between stars; one more than there are stars. */
  function Split(p: string): (r: seq<string>)
    ensures |r| == Stars(p) + 1
  {
    if p == "" then [""] else
    var rest := Split(p[1..]);
    if p[0] == '*' then [""] + rest else [[p[0]] + rest[0]] + rest[1..]
  }

  /** A star and a literal part, for each part in turn. */
  function Weave(parts: seq<string>, fills: seq<string>): string
    requires |parts| == |fills|
  {
    if parts == [] then "" else fills[0] + parts[0] + Weave(parts[1..], fills[1..])
  }

  lemma {:induction false} FillWeaves(p: string, fills: seq<string>)
    requires |fills| == Stars(p)
    ensures Fill(p, fills) == Split(p)[0] + Weave(Split(p)[1..], fills)
  {
    if p != "" {
      var rest := Split(p[1..]);
      if p[0] == '*' {
        FillWeaves(p[1..], fills[1..]);
        assert Split(p)[1..] == rest;
        assert fills[0] + (rest[0] + Weave(rest[1..], fills[1..])) == (fills[0] + rest[0])
          + Weave(rest[1..], fills[1..]);
      } else {
        FillWeaves(p[1..], fills);
        assert Split(p)[1..] == rest[1..];
        assert [p[0]] + (rest[0] + Weave(rest[1..], fills)) == ([p[0]] + rest[0]) + Weave(rest[1..], fills);
      }
    }
  }

  // ---- Matching part by part -----------------------------------------------------------------------------------

  /** The parts, each behind a star, make up all of `v`. */
  ghost predicate Remains(parts: seq<string>, v: string)
    decreases |parts|
  {
    if parts == [] then v == "" else
    exists i: nat :: OccursAt(v, parts[0], i) && Remains(parts[1..], v[i + |parts[0]|..])
  }

  lemma RemainsAt(parts: seq<string>, v: string, i: nat)
    requires parts != [] && OccursAt(v, parts[0], i) && Remains(parts[1..], v[i + |parts[0]|..])
    ensures Remains(parts, v)
  {
  }

  lemma {:induction false} RemainsFills(parts: seq<string>, v: string) returns (fills: seq<string>)
    requires Remains(parts, v)
    ensures |fills| == |parts| && Weave(parts, fills) == v
    decreases |parts|
  {
    if parts == [] {
      fills := [];
    } else {
      var t := parts[0];
      var i: nat :| OccursAt(v, t, i) && Remains(parts[1..], v[i + |t|..]);
      hide Remains, Weave;
      var rest := RemainsFills(parts[1..], v[i + |t|..]);
      fills := [v[..i]] + rest;
      WeaveFirst(parts, v[..i], rest);
      assert v == v[..i] + t + v[i + |t|..];
    }
  }

  lemma WeaveFirst(parts: seq<string>, before: string, rest: seq<string>)
    requires |parts| == |rest| + 1
    ensures Weave(parts, [before] + rest) == before + parts[0] + Weave(parts[1..], rest)
  {
    assert ([before] + rest)[1..] == rest;
  }

  lemma {:induction false} FillsRemain(parts: seq<string>, fills: seq<string>)
    requires |fills| == |parts|
    ensures Remains(parts, Weave(parts, fills))
    decreases |parts|
  {
    if parts != [] {
      var t, i, v := parts[0], |fills[0]|, Weave(parts, fills);
      FillsRemain(parts[1..], fills[1..]);
      assert v[i + |t|..] == Weave(parts[1..], fills[1..]);
      assert v[i..i + |t|] == t;
      hide Remains, Weave;
      RemainsAt(parts, v, i);
    }
  }

  /** The first star can take up more: matching later implies matching earlier. */
  lemma Absorb(parts: seq<string>, v: string, a: nat, b: nat)
    requires a <= b <= |v| && parts != [] && Remains(parts, v[b..])
    ensures Remains(parts, v[a..])
  {
    var t := parts[0];
    var i: nat :| OccursAt(v[b..], t, i) && Remains(parts[1..], v[b..][i + |t|..]);
    var j := b - a + i;
    assert v[a..][j..j + |t|] == v[b..][i..i + |t|];
    assert v[a..][j + |t|..] == v[b..][i + |t|..];
    assert OccursAt(v[a..], t, j);
  }

  /** So taking the leftmost occurrence of a part that is not the last loses nothing. */
  lemma Leftmost(parts: seq<string>, v: string, i: nat)
    requires |parts| >= 2 && OccursAt(v, parts[0], i) && forall j: nat :: j < i ==> !OccursAt(v, parts[0], j)
    ensures Remains(parts, v) <==> Remains(parts[1..], v[i + |parts[0]|..])
  {
    if Remains(parts, v) {
      var j: nat :| OccursAt(v, parts[0], j) && Remains(parts[1..], v[j + |parts[0]|..]);
      Absorb(parts[1..], v, i + |parts[0]|, j + |parts[0]|);
    }
  }

  /** The last part must stand at the end, after everything already matched. */
  lemma LastPart(t: string, v: string)
    ensures Remains([t], v) <==> |t| <= |v| && v[|v| - |t|..] == t
  {
    hide Remains;
    if Remains([t], v) {
      LastAtEnd(t, v);
    }
    if |t| <= |v| && v[|v| - |t|..] == t {
      EndRemains(t, v[..|v| - |t|]);
      assert v == v[..|v| - |t|] + t;
    }
  }

  lemma EndRemains(t: string, before: string)
    ensures Remains([t], before + t)
  {
    assert Weave([], []) == "" && [t][1..] == [] && [before][1..] == [];
    assert Weave([t], [before]) == before + t;
    FillsRemain([t], [before]);
  }

  lemma LastAtEnd(t: string, v: string)
    requires Remains([t], v)
    ensures |t| <= |v| && v[|v| - |t|..] == t
  {
    var i: nat :| OccursAt(v, t, i) && Remains([t][1..], v[i + |t|..]);
    assert [t][1..] == [];
    assert v[i + |t|..] == "";
    assert i + |t| == |v|;
  }

  lemma YieldsByParts(p: string, v: string)
    ensures Yields(p, v) <==> Split(p)[0] <= v && Remains(Split(p)[1..], v[|Split(p)[0]|..])
  {
    hide Remains, Weave, Fill, Split;
    var first, rest := Split(p)[0], Split(p)[1..];
    if fills: seq<string> :| |fills| == Stars(p) && Fill(p, fills) == v {
      FillWeaves(p, fills);
      FillsRemain(rest, fills);
      assert v[|first|..] == Weave(rest, fills);
    }
    if first <= v && Remains(rest, v[|first|..]) {
      var fills := RemainsFills(rest, v[|first|..]);
      FillWeaves(p, fills);
    }
  }

  lemma NoStars(p: string, v: string)
    requires Stars(p) == 0
    ensures Yields(p, v) <==> p == v
  {
    FillNothing(p);
    if Yields(p, v) {
      var fills: seq<string> :| |fills| == Stars(p) && Fill(p, fills) == v;
      assert fills == [];
    }
  }

  lemma {:induction false} FillNothing(p: string)
    requires Stars(p) == 0
    ensures Fill(p, []) == p && Split(p) == [p]
  {
    if p != "" {
      FillNothing(p[1..]);
    }
  }

  /** Taking a middle part at its leftmost place, `i` on from `pos`. */
  lemma TakePart(parts: seq<string>, k: nat, value: string, pos: nat, i: nat)
    requires k + 1 < |parts| && pos <= |value|
    requires OccursAt(value[pos..], parts[k], i) && forall j: nat :: j < i ==> !OccursAt(value[pos..], parts[k], j)
    ensures pos + i + |parts[k]| <= |value|
    ensures Remains(parts[k..], value[pos..]) <==> Remains(parts[k + 1..], value[pos + i + |parts[k]|..])
  {
    hide Remains;
    Leftmost(parts[k..], value[pos..], i);
    assert parts[k..][1..] == parts[k + 1..];
    assert value[pos..][i + |parts[k]|..] == value[pos + i + |parts[k]|..];
  }

  lemma NoPart(parts: seq<string>, k: nat, v: string)
    requires k < |parts| && forall i: nat :: !OccursAt(v, parts[k], i)
    ensures !Remains(parts[k..], v)
  {
  }

  lemma EmptyPart(v: string)
    ensures OccursAt(v, "", 0)
  {
  }

  /** Greedy matching: the first part at the start, each middle part at its leftmost place, the last part at the end. */
  method GlobMatch(pattern: string, value: string) returns (matched: bool)
    ensures matched <==> Yields(pattern, value)
  {
    hide Yields, Split, Stars, Remains, OccursAt;
    var parts := Split(pattern);
    if |parts| == 1 {
      NoStars(pattern, value);
      return pattern == value;
    }
    YieldsByParts(pattern, value);
    var pos: nat := 0;
    if parts[0] != "" {
      if !(parts[0] <= value) {
        return false;
      }
      pos := |parts[0]|;
    }
    for k := 1 to |parts| - 1
      invariant pos <= |value|
      invariant Yields(pattern, value) <==> Remains(parts[k..], value[pos..])
    {
      if parts[k] == "" {
        EmptyPart(value[pos..]);
        TakePart(parts, k, value, pos, 0);
        continue;
      }
      var found := Find(value[pos..], parts[k]);
      match found {
        case Some(i) =>
          TakePart(parts, k, value, pos, i);
          pos := pos + i + |parts[k]|;
        case None =>
          NoPart(parts, k, value[pos..]);
          return false;
      }
    }
    var last := parts[|parts| - 1];
    assert parts[|parts| - 1..] == [last];
    var rest := value[pos..];
    LastPart(last, rest);
    matched := last == "" || (|last| <= |rest| && rest[|rest| - |last|..] == last);
  }

  // ---- Patterns ---------------------------------------------------------------------------------------------------

  datatype Segment = Literal(text: string) | Wildcard | Any

  datatype Pattern = Pattern(namespace: Segment, package: Segment, iface: Segment, version: Segment, fn: Segment)

  function ParseSegment(s: string): Segment {
    if s == "*" then Wildcard else Literal(s)
  }

  function Parse(text: string): Result<Pattern, string> {
    var s := Trim(text);
    if s == "" then Failure("empty match pattern") else
    var (rest, fn) := match RSplitOnce(s, '#') case Some(r) => (r.0, ParseSegment(r.1)) case None => (s, Any);
    var (rest', version) := match RSplitOnce(rest, '@') case Some(r) => (r.0, ParseSegment(r.1))
      case None => (rest, Any);
    match SplitOnce(rest', ':')
    case None => Success(Pattern(Any, Any, Any, version, ParseSegment(rest')))
    case Some(q) =>
      match SplitOnce(q.1, '/')
      case Some(r) => Success(Pattern(ParseSegment(q.0), ParseSegment(r.0), ParseSegment(r.1), version, fn))
      case None => Success(Pattern(ParseSegment(q.0), ParseSegment(q.1), Any, version, fn))
  }

  /** What a segment selects. */
  ghost predicate Selects(seg: Segment, value: string) {
    seg.Literal? ==> Yields(seg.text, value)
  }

  method Matches(seg: Segment, value: string) returns (matched: bool)
    ensures matched <==> Selects(seg, value)
  {
    match seg {
      case Literal(s) =>
        if '*' in s {
          matched := GlobMatch(s, value);
        } else {
          StarFree(s);
          NoStars(s, value);
          matched := s == value;
        }
      case _ => matched := true;
    }
  }

  lemma {:induction false} StarFree(s: string)
    ensures Stars(s) == 0 <==> '*' !in s
  {
    if s != "" {
      StarFree(s[1..]);
      assert s == [s[0]] + s[1..];
    }
  }

  /** The parts of an interface name, and its version if it has one. */
  datatype InterfaceName = InterfaceName(namespace: string, package: string, iface: string, version: Option<string>)

  function ParseInterface(full: string): Option<InterfaceName> {
    match SplitOnce(full, ':')
    case None => None
    case Some(a) =>
      match SplitOnce(a.1, '/')
      case None => None
      case Some(b) =>
        match SplitOnce(b.1, '@')
        case Some(c) => Some(InterfaceName(a.0, b.0, c.0, Some(c.1)))
        case None => Some(InterfaceName(a.0, b.0, b.1, None))
  }

  /** Versions are compared as they stand, not as globs. */
  ghost predicate SelectsInterface(p: Pattern, name: InterfaceName) {
    && Selects(p.namespace, name.namespace) && Selects(p.package, name.package) && Selects(p.iface, name.iface)
    && (p.version.Literal? ==> name.version == Some(p.version.text))
  }

  /** What a pattern selects: a function of an interface, or a direct one if no interface part is given. */
  ghost predicate SelectsFunction(p: Pattern, iface: Option<string>, func: string) {
    && Selects(p.fn, func)
    && match iface
       case Some(full) => ParseInterface(full).Some? && SelectsInterface(p, ParseInterface(full).value)
       case None => p.namespace.Any? && p.package.Any? && p.iface.Any? && p.version.Any?
  }

  method MatchesInterface(p: Pattern, full: string) returns (matched: bool)
    ensures matched <==> ParseInterface(full).Some? && SelectsInterface(p, ParseInterface(full).value)
  {
    var parsed := ParseInterface(full);
    if parsed.None? {
      return false;
    }
    var name := parsed.value;
    var a := Matches(p.namespace, name.namespace);
    var b := Matches(p.package, name.package);
    var c := Matches(p.iface, name.iface);
    matched := a && b && c && match p.version
               case Literal(text) => name.version == Some(text)
               case _ => true;
  }

  method MatchesFunction(p: Pattern, iface: Option<string>, func: string) returns (matched: bool)
    ensures matched <==> SelectsFunction(p, iface, func)
  {
    match iface {
      case Some(full) =>
        matched := MatchesInterface(p, full);
        if matched {
          matched := Matches(p.fn, func);
        }
      case None =>
        matched := p.namespace.Any? && p.package.Any? && p.iface.Any? && p.version.Any?;
        if matched {
          matched := Matches(p.fn, func);
        }
    }
  }

  // ---- What a written pattern selects ---------------------------------------------------------------------------

  /** Free of the characters that delimit segments. */
  predicate Plain(s: string) {
    ':' !in s && '/' !in s && '@' !in s && '#' !in s
  }

  function Printed(name: InterfaceName): string {
    name.namespace + ":" + name.package + "/" + name.iface
      + (if name.version.Some? then "@" + name.version.value else "")
  }

  lemma PrintedParses(name: InterfaceName)
    requires Plain(name.namespace) && Plain(name.package) && Plain(name.iface)
    ensures ParseInterface(Printed(name)) == Some(name)
  {
    hide SplitOnce;
    var v := if name.version.Some? then "@" + name.version.value else "";
    SplitOnceAt(name.namespace, ':', name.package + "/" + name.iface + v);
    assert Printed(name) == name.namespace + [':'] + (name.package + "/" + name.iface + v);
    SplitOnceAt(name.package, '/', name.iface + v);
    assert name.package + "/" + name.iface + v == name.package + ['/'] + (name.iface + v);
    if name.version.Some? {
      SplitOnceAt(name.iface, '@', name.version.value);
      assert name.iface + v == name.iface + ['@'] + name.version.value;
    } else {
      SplitOnceNone(name.iface, '@');
      assert name.iface + v == name.iface;
    }
  }

  /** Only printed names are read as interface names; others lack the ':' or a '/' behind it. */
  lemma ParsesPrinted(full: string)
    ensures ParseInterface(full).Some? ==>
              var name := ParseInterface(full).value;
              full == Printed(name) && ':' !in name.namespace && '/' !in name.package && '@' !in name.iface
    ensures ParseInterface(full).None? ==>
              ':' !in full || exists a, b :: full == a + ":" + b && ':' !in a && '/' !in b
  {
    hide SplitOnce;
    SplitOnceBack(full, ':');
    if SplitOnce(full, ':').Some? {
      var a, b := SplitOnce(full, ':').value.0, SplitOnce(full, ':').value.1;
      SplitOnceBack(b, '/');
      assert full == a + ":" + b;
      if SplitOnce(b, '/').Some? {
        var c := SplitOnce(b, '/').value.1;
        SplitOnceBack(c, '@');
        if SplitOnce(c, '@').Some? {
          assert c == SplitOnce(c, '@').value.0 + ("@" + SplitOnce(c, '@').value.1);
        }
      }
    }
  }

  lemma StarYields(v: string)
    ensures Yields("*", v)
  {
    assert "*"[1..] == "" && [v][1..] == [];
    assert Stars("") == 0 && Stars("*") == 1;
    assert Fill("", []) == "";
    assert Fill("*", [v]) == v;
  }

  lemma SegmentSelects(s: string, v: string)
    ensures Selects(ParseSegment(s), v) <==> Yields(s, v)
  {
    if s == "*" {
      StarYields(v);
    }
  }

  function Prefixed(c: char, s: Option<string>): string {
    if s.Some? then [c] + s.value else ""
  }

  predicate Lacks(s: Option<string>, c: char) {
    s.Some? ==> c !in s.value
  }

  /** A pattern as it is written, with its optional parts. */
  datatype Qualified = Qualified(namespace: string, package: string, iface: Option<string>, version: Option<string>,
                                 fn: Option<string>)

  function Front(w: Qualified): string {
    w.namespace + ":" + w.package + Prefixed('/', w.iface)
  }

  function Written(w: Qualified): string {
    Front(w) + Prefixed('@', w.version) + Prefixed('#', w.fn)
  }

  /** Each delimiter stands where it is looked for: the last '#' and '@', the first ':' and the '/' after it. */
  predicate Unambiguous(w: Qualified) {
    && (if w.fn.Some? then '#' !in w.fn.value else '#' !in Front(w) && Lacks(w.version, '#'))
    && (if w.version.Some? then '@' !in w.version.value else '@' !in Front(w))
    && ':' !in w.namespace && '/' !in w.package
  }

  /**
   * A pattern with a ':' never selects a direct function. It selects a function of an interface exactly when every
   * part it has is a glob for its counterpart, except that a version which is not a lone star must be equal.
   */
  lemma QualifiedPattern(w: Qualified, name: InterfaceName, func: string)
    requires Unambiguous(w) && Tight(Written(w))
    requires Plain(name.namespace) && Plain(name.package) && Plain(name.iface)
    ensures var p := Parse(Written(w));
            && p.Success?
            && (SelectsFunction(p.value, Some(Printed(name)), func) <==>
                  && Yields(w.namespace, name.namespace) && Yields(w.package, name.package)
                       && (w.iface.Some? ==> Yields(w.iface.value, name.iface))
                  && (w.version.Some? ==> w.version.value == "*" || name.version == w.version)
                  && (w.fn.Some? ==> Yields(w.fn.value, func)))
            && !SelectsFunction(p.value, None, func)
  {
    hide SplitOnce, RSplitOnce, Yields;
    SuffixSplit(Front(w) + Prefixed('@', w.version), '#', w.fn);
    SuffixSplit(Front(w), '@', w.version);
    var rest := w.package + Prefixed('/', w.iface);
    assert Front(w) == w.namespace + [':'] + rest;
    SplitOnceAt(w.namespace, ':', rest);
    if w.iface.Some? {
      assert rest == w.package + ['/'] + w.iface.value;
      SplitOnceAt(w.package, '/', w.iface.value);
      SegmentSelects(w.iface.value, name.iface);
    } else {
      assert rest == w.package;
      SplitOnceNone(w.package, '/');
    }
    PrintedParses(name);
    SegmentSelects(w.namespace, name.namespace);
    SegmentSelects(w.package, name.package);
    if w.fn.Some? {
      SegmentSelects(w.fn.value, func);
    }
  }

  lemma SuffixSplit(s: string, c: char, suffix: Option<string>)
    requires if suffix.Some? then c !in suffix.value else c !in s
    ensures RSplitOnce(s + Prefixed(c, suffix), c) == if suffix.Some? then Some((s, suffix.value)) else None
    ensures suffix.None? ==> s + Prefixed(c, suffix) == s
  {
    if suffix.Some? {
      RSplitOnceAt(s, c, suffix.value);
      assert s + Prefixed(c, suffix) == s + [c] + suffix.value;
    } else {
      SplitOnceNone(s, c);
      assert s + Prefixed(c, suffix) == s;
    }
  }

  /** The same for a pattern without a ':'. */
  predicate IsBare(fn: string, version: Option<string>, hash: Option<string>) {
    && (if hash.Some? then '#' !in hash.value else '#' !in fn && Lacks(version, '#'))
    && (if version.Some? then '@' !in version.value else '@' !in fn)
    && ':' !in fn
  }

  /**
   * A pattern without a ':' selects by function name, in any interface of its version if it has one, else in any
   * interface or none. What stands behind a '#' is ignored.
   */
  lemma BarePattern(fn: string, version: Option<string>, ignored: Option<string>, name: InterfaceName, func: string)
    requires IsBare(fn, version, ignored) && Tight(fn + Prefixed('@', version) + Prefixed('#', ignored))
    requires Plain(name.namespace) && Plain(name.package) && Plain(name.iface)
    ensures var p := Parse(fn + Prefixed('@', version) + Prefixed('#', ignored));
            && p.Success?
            && (SelectsFunction(p.value, None, func) <==> version.None? && Yields(fn, func))
            && (SelectsFunction(p.value, Some(Printed(name)), func) <==>
                  Yields(fn, func) && (version.Some? ==> version.value == "*" || name.version == version))
  {
    hide SplitOnce, RSplitOnce, Yields;
    SuffixSplit(fn + Prefixed('@', version), '#', ignored);
    SuffixSplit(fn, '@', version);
    SplitOnceNone(fn, ':');
    PrintedParses(name);
    SegmentSelects(fn, func);
  }

  /** White space around a pattern does not matter. */
  lemma SpaceAround(before: string, text: string, after: string)
    requires forall c :: c in before || c in after ==> IsSpace(c)
    requires text == "" || Tight(text)
    ensures Parse(before + text + after) == Parse(text)
    ensures Parse(text).Failure? <==> text == ""
  {
    hide IsSpace, SplitOnce, RSplitOnce;
    TrimsTo(before, text, after);
    TrimsTo("", text, "");
    assert "" + text + "" == text;
  }

  /** Only white space is no pattern. */
  lemma NoPattern(text: string)
    ensures Parse(text).Failure? <==> forall c :: c in text ==> IsSpace(c)
  {
    var before, core, after := InSpace(text);
    SpaceAround(before, core, after);
    if core != "" {
      assert core[0] in text;
    }
  }

  /** Every text can be written in one of the two forms. */
  lemma TwoForms(text: string) returns (w: Option<Qualified>, fn: string, version: Option<string>, hash: Option<string>)
    ensures w.Some? ==> Unambiguous(w.value) && text == Written(w.value)
    ensures w.None? ==> text == fn + Prefixed('@', version) + Prefixed('#', hash) && IsBare(fn, version, hash)
  {
    var rest;
    rest, hash := SuffixOf(text, '#');
    fn, version := SuffixOf(rest, '@');
    SplitOnceBack(fn, ':');
    w := None;
    hide SplitOnce, Prefixed;
    if SplitOnce(fn, ':').Some? {
      var namespace, tail := SplitOnce(fn, ':').value.0, SplitOnce(fn, ':').value.1;
      SplitOnceBack(tail, '/');
      var slash := SplitOnce(tail, '/');
      w := Some(if slash.Some? then Qualified(namespace, slash.value.0, Some(slash.value.1), version, hash)
                else Qualified(namespace, tail, None, version, hash));
      FrontIs(w.value, namespace, tail);
    }
  }

  lemma FrontIs(w: Qualified, namespace: string, tail: string)
    requires w.namespace == namespace
    requires tail == if w.iface.Some? then w.package + ['/'] + w.iface.value else w.package
    ensures Front(w) == namespace + [':'] + tail
  {
  }

  lemma SuffixOf(s: string, c: char) returns (front: string, suffix: Option<string>)
    ensures s == front + Prefixed(c, suffix) && forall d :: d !in s ==> d !in front && Lacks(suffix, d)
    ensures if suffix.Some? then c !in suffix.value else c !in front
  {
    RSplitOnceBack(s, c);
    var r := RSplitOnce(s, c);
    if r.Some? {
      front, suffix := r.value.0, Some(r.value.1);
    } else {
      front, suffix := s, None;
    }
  }
}
