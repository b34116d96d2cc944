/** Character classes and the trimming operations of Python's `str`:
    `strip()`, `strip(chars)`, and the `in` substring test. */
module Text {

  /** The characters for which Python's `str.isspace()` holds; these are what
      `str.strip()` removes when called without arguments. */
  predicate IsSpace(c: char) {
    || c == ' ' || '\t' <= c <= '\r' || '\U{1C}' <= c <= '\U{1F}'
    || c == '\U{85}' || c == '\U{A0}' || c == '\U{1680}'
    || '\U{2000}' <= c <= '\U{200A}' || c == '\U{2028}' || c == '\U{2029}'
    || c == '\U{202F}' || c == '\U{205F}' || c == '\U{3000}'
  }

  const Whitespace: set<char> := set c: char | IsSpace(c)

  /** Every character of `s` belongs to `cs`. */
  predicate AllIn(s: string, cs: set<char>) {
    forall k | 0 <= k < |s| :: s[k] in cs
  }

  /** No character of `s` belongs to `cs`. */
  predicate NoneIn(s: string, cs: set<char>) {
    forall k | 0 <= k < |s| :: s[k] !in cs
  }

  /** `s` neither starts nor ends with a character of `cs`. */
  predicate Bare(s: string, cs: set<char>) {
    s == [] || (s[0] !in cs && s[|s| - 1] !in cs)
  }

  /** Removes the leading characters that belong to `cs`. */
  function TrimStart(s: string, cs: set<char>): (r: string)
    ensures |r| <= |s| && r == s[|s| - |r|..]
    ensures AllIn(s[..|s| - |r|], cs)
    ensures r == [] || r[0] !in cs
  {
    if |s| > 0 && s[0] in cs then
      var r := TrimStart(s[1..], cs);
      var n := |s| - |r|;
      assert s[1..][n - 1..] == s[n..];
      assert AllIn(s[..n], cs) by {
        forall k | 0 <= k < n
          ensures s[..n][k] in cs
        {
          if k > 0 {
            assert s[..n][k] == s[1..][..n - 1][k - 1];
          }
        }
      }
      r
    else
      s
  }

  /** Removes the trailing characters that belong to `cs`. */
  function TrimEnd(s: string, cs: set<char>): (r: string)
    ensures |r| <= |s| && r == s[..|r|]
    ensures AllIn(s[|r|..], cs)
    ensures r == [] || r[|r| - 1] !in cs
  {
    if |s| > 0 && s[|s| - 1] in cs then
      var r := TrimEnd(s[..|s| - 1], cs);
      assert s[|r|..] == s[..|s| - 1][|r|..] + [s[|s| - 1]];
      r
    else
      s
  }

  /** `r` is the piece of `s` starting at index `i` that remains once the
      maximal runs of `cs` characters at both ends are cut off: everything
      before and after it is in `cs`, and it is itself bare. */
  ghost predicate StripAt(s: string, cs: set<char>, i: nat, r: string) {
    && i + |r| <= |s|
    && r == s[i..i + |r|]
    && AllIn(s[..i], cs)
    && AllIn(s[i + |r|..], cs)
    && Bare(r, cs)
  }

  /** `r` is `s` stripped of `cs` characters at both ends. */
  ghost predicate IsStripOf(s: string, cs: set<char>, r: string) {
    exists i: nat :: StripAt(s, cs, i, r)
  }

  /** Python's `s.strip(chars)` with the characters of `cs`. */
  function StripChars(s: string, cs: set<char>): (r: string)
    ensures Bare(r, cs)
    ensures |r| <= |s|
    ensures IsStripOf(s, cs, r)
  {
    TrimBothAt(s, cs);
    TrimEnd(TrimStart(s, cs), cs)
  }

  /** Trimming the start and then the end leaves the piece that begins
      after the leading run. */
  lemma TrimBothAt(s: string, cs: set<char>)
    ensures StripAt(s, cs, |s| - |TrimStart(s, cs)|, TrimEnd(TrimStart(s, cs), cs))
  {
    var t := TrimStart(s, cs);
    var r := TrimEnd(t, cs);
    var i := |s| - |t|;
    assert t == s[i..] && r == t[..|r|];
    assert r == s[i..i + |r|];
    assert AllIn(s[..i], cs);
    assert AllIn(s[i + |r|..], cs) by {
      assert s[i + |r|..] == t[|r|..];
    }
    assert Bare(r, cs) by {
      if r != [] {
        assert r[0] == t[0];
      }
    }
    assert StripAt(s, cs, i, r);
  }

  /** Python's argument-less `s.strip()`. */
  function Strip(s: string): (r: string)
    ensures Bare(r, Whitespace)
    ensures IsStripOf(s, Whitespace, r)
  {
    StripChars(s, Whitespace)
  }

  /** Stripping introduces no character: a class absent from `s` is absent
      from the stripped string. */
  lemma StripKeepsAbsence(s: string, cs: set<char>, absent: set<char>)
    requires NoneIn(s, absent)
    ensures NoneIn(StripChars(s, cs), absent)
  {
    var r := StripChars(s, cs);
    var i: nat :| StripAt(s, cs, i, r);
    forall k | 0 <= k < |r|
      ensures r[k] !in absent
    {
      assert r[k] == s[i + k];
    }
  }

  /** `StripAt` restated index by index over `s` itself. */
  lemma StripAtIndices(s: string, cs: set<char>, i: nat, r: string)
    requires StripAt(s, cs, i, r)
    ensures forall k | 0 <= k < i :: s[k] in cs
    ensures forall k | i + |r| <= k < |s| :: s[k] in cs
    ensures r != [] ==> s[i] !in cs && s[i + |r| - 1] !in cs
  {
    forall k | 0 <= k < i
      ensures s[k] in cs
    {
      assert s[..i][k] == s[k];
    }
    forall k | i + |r| <= k < |s|
      ensures s[k] in cs
    {
      assert s[i + |r|..][k - i - |r|] == s[k];
    }
  }

  /** Two bare pieces of `s` that both leave only `cs` characters around
      them are the same piece. */
  lemma StripAtUnique(s: string, cs: set<char>, i: nat, r: string, i': nat, r': string)
    requires StripAt(s, cs, i, r) && StripAt(s, cs, i', r')
    ensures r == r'
  {
    StripAtIndices(s, cs, i, r);
    StripAtIndices(s, cs, i', r');
  }

  /** The description `IsStripOf` determines the stripped string: whatever
      satisfies it is exactly what `StripChars` returns. */
  lemma StripUnique(s: string, cs: set<char>, r: string)
    requires IsStripOf(s, cs, r)
    ensures r == StripChars(s, cs)
  {
    var r' := StripChars(s, cs);
    var i: nat :| StripAt(s, cs, i, r);
    var i': nat :| StripAt(s, cs, i', r');
    StripAtUnique(s, cs, i, r, i', r');
  }

  /** A string that is already bare is left untouched. */
  lemma StripBare(s: string, cs: set<char>)
    requires Bare(s, cs)
    ensures StripChars(s, cs) == s
  {
    assert StripAt(s, cs, 0, s) by {
      assert s == s[0..0 + |s|];
      assert s[..0] == [] && s[|s|..] == [];
    }
    StripUnique(s, cs, s);
  }

  /** Stripping removes exactly the runs of `cs` characters around a bare
      string. */
  lemma StripSurrounded(w1: string, d: string, w2: string, cs: set<char>)
    requires AllIn(w1, cs) && AllIn(w2, cs) && Bare(d, cs)
    ensures StripChars(w1 + d + w2, cs) == d
  {
    var s := w1 + d + w2;
    var i := |w1|;
    assert StripAt(s, cs, i, d) by {
      assert s[..i] == w1 && s[i..i + |d|] == d && s[i + |d|..] == w2;
    }
    StripUnique(s, cs, d);
  }

  /** Stripping twice is the same as stripping once. */
  lemma StripIdempotent(s: string, cs: set<char>)
    ensures StripChars(StripChars(s, cs), cs) == StripChars(s, cs)
  {
    StripBare(StripChars(s, cs), cs);
  }

  /** Length of the longest prefix of `s` made of characters in `cs`. */
  function SpanIn(s: string, cs: set<char>): (n: nat)
    ensures n <= |s|
    ensures AllIn(s[..n], cs)
    ensures n == |s| || s[n] !in cs
  {
    if |s| > 0 && s[0] in cs then
      var n := 1 + SpanIn(s[1..], cs);
      assert s[..n] == [s[0]] + s[1..][..n - 1];
      n
    else
      0
  }

  /** Length of the longest prefix of `s` free of characters in `cs`; the
      index of the first `cs` character when there is one. */
  function SpanOut(s: string, cs: set<char>): (n: nat)
    ensures n <= |s|
    ensures NoneIn(s[..n], cs)
    ensures n == |s| || s[n] in cs
  {
    if |s| > 0 && s[0] !in cs then
      var n := 1 + SpanOut(s[1..], cs);
      assert s[..n] == [s[0]] + s[1..][..n - 1];
      n
    else
      0
  }

  /** A span of characters outside `cs` stops at the first one inside it. */
  lemma SpanOutStops(x: string, c: char, rest: string, cs: set<char>)
    requires NoneIn(x, cs) && c in cs
    ensures SpanOut(x + [c] + rest, cs) == |x|
  {
    var s := x + [c] + rest;
    assert s[|x|] == c;
    assert forall i | 0 <= i < |x| :: s[i] == x[i];
    assert forall m | |x| < m <= |s| :: s[..m][|x|] == c;
  }

  /** A span of characters inside `cs` stops at the first one outside it. */
  lemma SpanInStops(x: string, c: char, rest: string, cs: set<char>)
    requires AllIn(x, cs) && c !in cs
    ensures SpanIn(x + [c] + rest, cs) == |x|
  {
    var s := x + [c] + rest;
    assert s[|x|] == c;
    assert forall i | 0 <= i < |x| :: s[i] == x[i];
    assert forall m | |x| < m <= |s| :: s[..m][|x|] == c;
  }

  /** Python's `needle in s`: `needle` occurs in `s` as a contiguous piece. */
  predicate Contains(s: string, needle: string) {
    exists p | 0 <= p <= |s| - |needle| :: OccursAt(s, needle, p)
  }

  /** `needle` occurs in `s` starting at index `p`. */
  predicate OccursAt(s: string, needle: string, p: nat) {
    p + |needle| <= |s| && s[p..p + |needle|] == needle
  }
}
