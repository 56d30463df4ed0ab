/** The path syntax of templates: parsing is the inverse of printing. */
module PathSyntax {
  import opened Json
  import opened Decimals
  import opened Wrappers

  /** The largest index, on a 64-bit host. */
  const USIZE_MAX: nat := 0xFFFF_FFFF_FFFF_FFFF

  predicate IsNameChar(c: char) {
    'A' <= c <= 'Z' || 'a' <= c <= 'z' || IsDigit(c) || c == '_' || c == '-'
  }

  predicate NotQuote(c: char) {
    c != '"'
  }

  // ---- Reading from the left ---------------------------------------------------------------------------------

  /** How many characters from the start satisfy `p`. */
  function RunLength(p: char -> bool, s: string): (n: nat)
    ensures n <= |s| && (forall i :: 0 <= i < n ==> p(s[i])) && (n < |s| ==> !p(s[n]))
  {
    if s != "" && p(s[0]) then 1 + RunLength(p, s[1..]) else 0
  }

  /** One segment after the first, and how many characters it takes. */
  function ReadSegment(s: string): (r: Option<(PathSegment, nat)>)
    ensures r.Some? ==> 0 < r.value.1 <= |s|
  {
    if s == "" then None
    else if s[0] == '.' then
      var n := RunLength(IsNameChar, s[1..]);
      if n == 0 then None else Some((Key(s[1..1 + n]), 1 + n))
    else if s[0] != '[' || |s| == 1 then None
    else if s[1] == '"' then
      var n := RunLength(NotQuote, s[2..]);
      if 2 + n + 1 < |s| && s[2 + n + 1] == ']' then Some((Key(s[2..2 + n]), 2 + n + 2)) else None
    else
      var n := RunLength(IsDigit, s[1..]);
      if n == 0 || DigitsValue(s[1..1 + n]) > USIZE_MAX || !(1 + n < |s| && s[1 + n] == ']') then None
      else Some((Index(DigitsValue(s[1..1 + n])), 1 + n + 1))
  }

  function ReadTail(s: string): Option<seq<PathSegment>>
    decreases |s|
  {
    if s == "" then Some([]) else
    match ReadSegment(s)
    case None => None
    case Some(r) =>
      match ReadTail(s[r.1..])
      case None => None
      case Some(rest) => Some([r.0] + rest)
  }

  function ReadPath(s: string): Option<seq<PathSegment>> {
    var n := RunLength(IsNameChar, s);
    if n == 0 then None else
    match ReadTail(s[n..])
    case None => None
    case Some(rest) => Some([Key(s[..n])] + rest)
  }

  // ---- Writing ------------------------------------------------------------------------------------------------

  function PrintSegment(seg: PathSegment): (r: string)
    ensures r != "" && r[0] == '['
  {
    match seg
    case Key(k) => "[\"" + k + "\"]"
    case Index(i) => "[" + Digits(i) + "]"
  }

  function PrintTail(path: seq<PathSegment>): string {
    if path == [] then "" else PrintSegment(path[0]) + PrintTail(path[1..])
  }

  predicate IsName(s: string) {
    s != "" && forall i :: 0 <= i < |s| ==> IsNameChar(s[i])
  }

  predicate Printable(seg: PathSegment) {
    match seg
    case Key(k) => '"' !in k
    case Index(i) => i <= USIZE_MAX
  }

  /** A bare name first, then quote-free keys and indexes that fit. */
  predicate PrintablePath(path: seq<PathSegment>) {
    path != [] && path[0].Key? && IsName(path[0].key) && forall i :: 0 < i < |path| ==> Printable(path[i])
  }

  function Print(path: seq<PathSegment>): string
    requires PrintablePath(path)
  {
    path[0].key + PrintTail(path[1..])
  }

  // ---- Inverse --------------------------------------------------------------------------------------------------

  lemma {:induction false} RunOf(p: char -> bool, a: string, b: string)
    requires (forall i :: 0 <= i < |a| ==> p(a[i])) && (b == "" || !p(b[0]))
    ensures RunLength(p, a + b) == |a|
  {
    if a == "" {
      assert a + b == b;
    } else {
      assert (a + b)[1..] == a[1..] + b;
      RunOf(p, a[1..], b);
    }
  }

  lemma PrintedKey(k: string, rest: string)
    requires '"' !in k
    ensures ReadSegment(PrintSegment(Key(k)) + rest) == Some((Key(k), |k| + 4))
  {
    hide RunLength;
    var s := PrintSegment(Key(k)) + rest;
    var after := "\"]" + rest;
    assert s == "[\"" + (k + after);
    assert s[2..] == k + after;
    RunOf(NotQuote, k, after);
    assert s[2..2 + |k|] == k;
    assert s[2 + |k|..] == after;
    assert s[2 + |k| + 1] == after[1];
  }

  lemma PrintedIndex(i: nat, rest: string)
    requires i <= USIZE_MAX
    ensures ReadSegment(PrintSegment(Index(i)) + rest) == Some((Index(i), |Digits(i)| + 2))
  {
    hide RunLength, Digits, DigitsValue;
    var t := PrintSegment(Index(i));
    assert t[1..|t| - 1] == Digits(i);
    DigitsRead(i);
    IndexIsRead(i, t, rest);
  }

  lemma PrintedSegment(seg: PathSegment, rest: string)
    requires Printable(seg)
    ensures ReadSegment(PrintSegment(seg) + rest) == Some((seg, |PrintSegment(seg)|))
  {
    match seg {
      case Key(k) => PrintedKey(k, rest);
      case Index(i) => PrintedIndex(i, rest);
    }
  }

  lemma {:induction false} PrintedTail(path: seq<PathSegment>)
    requires forall i :: 0 <= i < |path| ==> Printable(path[i])
    ensures ReadTail(PrintTail(path)) == Some(path)
  {
    if path != [] {
      hide ReadSegment, PrintSegment, Printable;
      var seg, rest := path[0], PrintTail(path[1..]);
      PrintedSegment(seg, rest);
      PrintedTail(path[1..]);
      assert (PrintSegment(seg) + rest)[|PrintSegment(seg)|..] == rest;
      assert [seg] + path[1..] == path;
    }
  }

  /** Printing any printable path, then parsing it, gives it back. */
  lemma ParsePrinted(path: seq<PathSegment>)
    requires PrintablePath(path)
    ensures ReadPath(Print(path)) == Some(path)
  {
    hide RunLength, ReadTail;
    var name, rest := path[0].key, PrintTail(path[1..]);
    PrintedTail(path[1..]);
    RunOf(IsNameChar, name, rest);
    assert (name + rest)[|name|..] == rest && (name + rest)[..|name|] == name;
    assert [path[0]] + path[1..] == path;
  }

  lemma ReadSegmentPrintable(s: string)
    requires ReadSegment(s).Some?
    ensures Printable(ReadSegment(s).value.0)
  {
    if s[0] == '.' {
      var n := RunLength(IsNameChar, s[1..]);
      assert s[1..1 + n] == s[1..][..n];
    } else if s[1] == '"' {
      var n := RunLength(NotQuote, s[2..]);
      assert s[2..2 + n] == s[2..][..n];
    }
  }

  lemma {:induction false} ReadTailPrintable(s: string)
    requires ReadTail(s).Some?
    ensures forall i :: 0 <= i < |ReadTail(s).value| ==> Printable(ReadTail(s).value[i])
    decreases |s|
  {
    if s != "" {
      ReadSegmentPrintable(s);
      ReadTailPrintable(s[ReadSegment(s).value.1..]);
    }
  }

  /** Every accepted string denotes a printable path, so re-printing it gives a string for the same path. */
  lemma AcceptedReprints(s: string)
    requires ReadPath(s).Some?
    ensures PrintablePath(ReadPath(s).value) && ReadPath(Print(ReadPath(s).value)) == ReadPath(s)
  {
    var n := RunLength(IsNameChar, s);
    ReadTailPrintable(s[n..]);
    ParsePrinted(ReadPath(s).value);
  }

  // ---- The grammar ------------------------------------------------------------------------------------------------

  /** How a segment after the first may be written: a dotted name, a quoted key, or an index in decimal. */
  predicate Spells(seg: PathSegment, t: string) {
    match seg
    case Key(k) => (IsName(k) && t == "." + k) || ('"' !in k && t == "[\"" + k + "\"]")
    case Index(i) =>
      && |t| > 2 && t[0] == '[' && t[|t| - 1] == ']'
      && AllDigits(t[1..|t| - 1]) && DigitsValue(t[1..|t| - 1]) == i <= USIZE_MAX
  }

  ghost predicate SpellsAll(path: seq<PathSegment>, s: string) {
    if path == [] then s == "" else
    exists n: nat :: n <= |s| && Spells(path[0], s[..n]) && SpellsAll(path[1..], s[n..])
  }

  /** A bare name, then each further segment in one of its spellings. */
  ghost predicate SpellsPath(path: seq<PathSegment>, s: string) {
    && path != [] && path[0].Key? && IsName(path[0].key)
    && path[0].key <= s && SpellsAll(path[1..], s[|path[0].key|..])
  }

  lemma ReadIsSpelled(s: string)
    requires ReadSegment(s).Some?
    ensures Spells(ReadSegment(s).value.0, s[..ReadSegment(s).value.1])
  {
    hide RunLength, DigitsValue, IsNameChar, IsDigit;
    if s[0] == '.' {
      var n := RunLength(IsNameChar, s[1..]);
      assert s[1..1 + n] == s[1..][..n];
      assert s[..1 + n] == "." + s[1..1 + n];
    } else if s[1] == '"' {
      var n := RunLength(NotQuote, s[2..]);
      assert s[2..2 + n] == s[2..][..n];
      assert s[..2 + n + 2] == "[\"" + s[2..2 + n] + "\"]";
    } else {
      var n := RunLength(IsDigit, s[1..]);
      var t := s[..1 + n + 1];
      assert t[1..|t| - 1] == s[1..1 + n] == s[1..][..n];
      assert t[|t| - 1] == s[1 + n];
      assert AllDigits(s[1..1 + n]);
    }
  }

  /** What may follow a segment: nothing, or another segment. */
  predicate Stops(rest: string) {
    rest == "" || rest[0] == '.' || rest[0] == '['
  }

  lemma SpelledIsRead(seg: PathSegment, t: string, rest: string)
    requires Spells(seg, t) && Stops(rest)
    ensures ReadSegment(t + rest) == Some((seg, |t|))
  {
    var s := t + rest;
    if seg.Index? {
      IndexIsRead(seg.index, t, rest);
    } else if t[0] == '.' {
      hide RunLength;
      assert s[1..] == seg.key + rest;
      RunOf(IsNameChar, seg.key, rest);
      assert s[1..1 + |seg.key|] == seg.key;
    } else {
      PrintedKey(seg.key, rest);
    }
  }

  lemma IndexIsRead(i: nat, t: string, rest: string)
    requires Spells(Index(i), t)
    ensures ReadSegment(t + rest) == Some((Index(i), |t|))
  {
    hide RunLength, DigitsValue;
    var s, d := t + rest, t[1..|t| - 1];
    assert t == "[" + d + "]";
    assert s[1..] == d + ("]" + rest);
    RunOf(IsDigit, d, "]" + rest);
    assert s[1..1 + |d|] == d;
    assert s[1] == d[0] && s[1 + |d|] == ']';
  }

  lemma SpelledStops(path: seq<PathSegment>, s: string)
    requires SpellsAll(path, s)
    ensures Stops(s)
  {
    hide IsName, DigitsValue;
    if path != [] {
      var n: nat :| n <= |s| && Spells(path[0], s[..n]) && SpellsAll(path[1..], s[n..]);
      assert n > 0 && s[0] == s[..n][0];
    }
  }

  lemma {:induction false} TailExactly(s: string, path: seq<PathSegment>)
    ensures ReadTail(s) == Some(path) <==> SpellsAll(path, s)
    decreases |path|
  {
    hide Spells, ReadSegment;
    if ReadTail(s) == Some(path) && s != "" {
      var n := ReadSegment(s).value.1;
      ReadIsSpelled(s);
      TailExactly(s[n..], path[1..]);
      assert Spells(path[0], s[..n]) && SpellsAll(path[1..], s[n..]);
    }
    if SpellsAll(path, s) && path != [] {
      var n: nat :| n <= |s| && Spells(path[0], s[..n]) && SpellsAll(path[1..], s[n..]);
      SpelledStops(path[1..], s[n..]);
      SpelledIsRead(path[0], s[..n], s[n..]);
      assert s == s[..n] + s[n..];
      TailExactly(s[n..], path[1..]);
      assert [path[0]] + path[1..] == path;
    }
  }

  /** A text is accepted, as this path, just when it spells the path. */
  lemma ReadsExactly(s: string, path: seq<PathSegment>)
    ensures ReadPath(s) == Some(path) <==> SpellsPath(path, s)
  {
    hide RunLength, ReadTail, SpellsAll, IsNameChar;
    var n := RunLength(IsNameChar, s);
    if ReadPath(s) == Some(path) {
      assert path[1..] == ReadTail(s[n..]).value;
      TailExactly(s[n..], path[1..]);
    }
    if SpellsPath(path, s) {
      var name := path[0].key;
      var rest := s[|name|..];
      SpelledStops(path[1..], rest);
      assert s == name + rest;
      StopIsNoName(rest);
      RunOf(IsNameChar, name, rest);
      TailExactly(rest, path[1..]);
      assert [path[0]] + path[1..] == path;
    }
  }

  lemma StopIsNoName(rest: string)
    requires Stops(rest)
    ensures rest == "" || !IsNameChar(rest[0])
  {
  }

  // ---- The scan ---------------------------------------------------------------------------------------------------

  method ScanWhile(p: char -> bool, s: string, start: nat) returns (i: nat)
    requires start <= |s|
    ensures i == start + RunLength(p, s[start..]) && i <= |s|
  {
    i := start;
    while i < |s| && p(s[i])
      invariant start <= i <= |s|
      invariant RunLength(p, s[start..]) == i - start + RunLength(p, s[i..])
    {
      assert s[i..][1..] == s[i + 1..];
      i := i + 1;
    }
  }

  /** The parser as written: one cursor over the text. */
  method ParsePath(s: string) returns (r: Result<seq<PathSegment>, string>)
    ensures r.Success? <==> ReadPath(s).Some?
    ensures r.Success? ==> r.value == ReadPath(s).value
  {
    hide ReadSegment, RunLength;
    var segments: seq<PathSegment> := [];
    assert s[0..] == s;
    var i := ScanWhile(IsNameChar, s, 0);
    if i == 0 {
      return Failure("path must start with a name segment");
    }
    segments := [Key(s[..i])];
    ghost var tail := ReadTail(s[i..]);
    while i < |s|
      invariant 0 < i <= |s| && segments != []
      invariant tail.Some? <==> ReadTail(s[i..]).Some?
      invariant tail.Some? ==> [segments[0]] + tail.value == segments + ReadTail(s[i..]).value
      invariant segments[0] == Key(s[..RunLength(IsNameChar, s)])
      decreases |s| - i
    {
      var next := ParseSegment(s, i);
      if next.None? {
        return Failure("invalid path");
      }
      ghost var rest := s[i..];
      assert s[i..][next.value.1 - i..] == s[next.value.1..];
      segments := segments + [next.value.0];
      i := next.value.1;
    }
    r := Success(segments);
  }

  /** One segment at position `at`: `.name`, `["string"]` or `[integer]`. Returns it and the position after it. */
  method ParseSegment(s: string, at: nat) returns (r: Option<(PathSegment, nat)>)
    requires at < |s|
    ensures r.Some? <==> ReadSegment(s[at..]).Some?
    ensures r.Some? ==> at < r.value.1 <= |s| && ReadSegment(s[at..]) == Some((r.value.0, r.value.1 - at))
  {
    hide RunLength, DigitsValue, IsNameChar, NotQuote;
    var t := s[at..];
    if s[at] == '.' {
      assert t[1..] == s[at + 1..];
      var i := ScanWhile(IsNameChar, s, at + 1);
      if i == at + 1 {
        return None;
      }
      assert t[1..i - at] == s[at + 1..i];
      return Some((Key(s[at + 1..i]), i));
    }
    if s[at] != '[' || at + 1 >= |s| {
      return None;
    }
    if s[at + 1] == '"' {
      assert t[2..] == s[at + 2..];
      var i := ScanWhile(NotQuote, s, at + 2);
      if i + 1 >= |s| || s[i + 1] != ']' {
        return None;
      }
      assert t[2..i - at] == s[at + 2..i];
      return Some((Key(s[at + 2..i]), i + 2));
    }
    assert t[1..] == s[at + 1..];
    var i := ScanWhile(IsDigit, s, at + 1);
    assert t[1..i - at] == s[at + 1..i];
    assert forall k :: at + 1 <= k < i ==> s[k] == s[at + 1..][k - at - 1];
    if i == at + 1 || DigitsValue(s[at + 1..i]) > USIZE_MAX || i >= |s| || s[i] != ']' {
      return None;
    }
    r := Some((Index(DigitsValue(s[at + 1..i])), i + 1));
  }
}
