/** Strings cut at delimiters and trimmed of white space. */
module Texts {
  import opened Wrappers

  /** Around the first, and around the last, occurrence of a delimiter. */
  function SplitOnce(s: string, c: char): Option<(string, string)> {
    if s == "" then None
    else if s[0] == c then Some(("", s[1..]))
    else match SplitOnce(s[1..], c)
      case None => None
      case Some(r) => Some(([s[0]] + r.0, r.1))
  }

  function RSplitOnce(s: string, c: char): Option<(string, string)> {
    if s == "" then None
    else if s[|s| - 1] == c then Some((s[..|s| - 1], ""))
    else match RSplitOnce(s[..|s| - 1], c)
      case None => None
      case Some(r) => Some((r.0, r.1 + [s[|s| - 1]]))
  }

  /** White space as Unicode has it. */
  predicate IsSpace(c: char) {
    var n := c as int;
    || 9 <= n <= 13 || n == 0x20 || n == 0x85 || n == 0xA0 || n == 0x1680 || 0x2000 <= n <= 0x200A
    || n == 0x2028 || n == 0x2029 || n == 0x202F || n == 0x205F || n == 0x3000
  }

  function Trim(s: string): string {
    if s != "" && IsSpace(s[0]) then Trim(s[1..])
    else if s != "" && IsSpace(s[|s| - 1]) then Trim(s[..|s| - 1])
    else s
  }

  /** Neither empty nor with white space at an end. */
  predicate Tight(s: string) {
    s != "" && !IsSpace(s[0]) && !IsSpace(s[|s| - 1])
  }

  lemma {:induction false} SplitOnceAt(a: string, c: char, b: string)
    requires c !in a
    ensures SplitOnce(a + [c] + b, c) == Some((a, b))
  {
    if a == "" {
      assert a + [c] + b == [c] + b;
    } else {
      SplitOnceAt(a[1..], c, b);
      assert (a + [c] + b)[1..] == a[1..] + [c] + b;
      assert [a[0]] + a[1..] == a;
    }
  }

  lemma {:induction false} RSplitOnceAt(a: string, c: char, b: string)
    requires c !in b
    ensures RSplitOnce(a + [c] + b, c) == Some((a, b))
  {
    var s := a + [c] + b;
    if b == "" {
      assert s[..|s| - 1] == a;
    } else {
      RSplitOnceAt(a, c, b[..|b| - 1]);
      assert s[..|s| - 1] == a + [c] + b[..|b| - 1];
      assert b[..|b| - 1] + [b[|b| - 1]] == b;
    }
  }

  lemma {:induction false} SplitOnceNone(s: string, c: char)
    requires c !in s
    ensures SplitOnce(s, c) == None && RSplitOnce(s, c) == None
    decreases |s|
  {
    if s != "" {
      SplitOnceNone(s[1..], c);
      SplitOnceNone(s[..|s| - 1], c);
    }
  }

  lemma {:induction false} SplitOnceBack(s: string, c: char)
    ensures SplitOnce(s, c).None? ==> c !in s
    ensures SplitOnce(s, c).Some? ==> var r := SplitOnce(s, c).value; s == r.0 + [c] + r.1 && c !in r.0
  {
    if s != "" {
      SplitOnceBack(s[1..], c);
      assert s == [s[0]] + s[1..];
    }
  }

  lemma {:induction false} RSplitOnceBack(s: string, c: char)
    ensures RSplitOnce(s, c).None? ==> c !in s
    ensures RSplitOnce(s, c).Some? ==> var r := RSplitOnce(s, c).value; s == r.0 + [c] + r.1 && c !in r.1
  {
    if s != "" {
      RSplitOnceBack(s[..|s| - 1], c);
      assert s == s[..|s| - 1] + [s[|s| - 1]];
    }
  }

  lemma {:induction false} TrimsTo(before: string, text: string, after: string)
    requires forall c :: c in before || c in after ==> IsSpace(c)
    requires text == "" || Tight(text)
    ensures Trim(before + text + after) == text
    decreases |before| + |after|
  {
    hide IsSpace;
    var s := before + text + after;
    if before != "" {
      assert before[0] in before;
      assert s[1..] == before[1..] + text + after;
      TrimsTo(before[1..], text, after);
    } else if after != "" {
      assert after[|after| - 1] in after;
      if text == "" {
        assert s == after && after[0] in after;
        assert s[1..] == before + text + after[1..];
        TrimsTo(before, text, after[1..]);
      } else {
        assert s[0] == text[0];
        assert s[..|s| - 1] == before + text + after[..|after| - 1];
        TrimsTo(before, text, after[..|after| - 1]);
      }
    } else {
      assert s == text;
    }
  }

  /** Every text is a core that does not start or end with white space, or nothing, in white space. */
  lemma InSpace(text: string) returns (before: string, core: string, after: string)
    ensures text == before + core + after && (core == "" || Tight(core))
    ensures forall c :: c in before || c in after ==> IsSpace(c)
  {
    hide IsSpace;
    var i := 0;
    while i < |text| && IsSpace(text[i])
      invariant 0 <= i <= |text| && forall c :: c in text[..i] ==> IsSpace(c)
    {
      i := i + 1;
    }
    var j := |text|;
    while i < j && IsSpace(text[j - 1])
      invariant i <= j <= |text| && forall c :: c in text[j..] ==> IsSpace(c)
    {
      j := j - 1;
    }
    before, core, after := text[..i], text[i..j], text[j..];
  }
}
