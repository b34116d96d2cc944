/** The regular expressions `re.search` applies to one free-text order item,
    written as a fixed micro-grammar. Each pattern is a literal label
    followed by one capture group:

      Field(l)      l([^;]+)       greedy run of non-`;` characters, at least one
      Count(l)      l(\d+)         greedy run of digits, at least one
      Reference(l)  l ?([^;]*);    optional space, run of non-`;`, then `;`

    `re.search` reports the match that starts leftmost; `Find` models that
    scan and `MatchAt` models matching at one fixed starting position. */
module Patterns {
  import opened Wrappers
  import opened Text
  import opened Digits

  const Semicolon: set<char> := {';'}

  datatype Pattern =
    | Field(caption: string)
    | Count(caption: string)
    | Reference(caption: string)

  /** `l` is a prefix of `t`. */
  predicate StartsWith(t: string, l: string) {
    |l| <= |t| && t[..|l|] == l
  }

  /** `l([^;]+)` matched at the start of `t`. Backtracking cannot help the
      greedy run: nothing follows it in the pattern. */
  function MatchField(t: string, l: string): (r: Option<string>)
    ensures r.Some? <==> StartsWith(t, l) && |t| > |l| && t[|l|] != ';'
    ensures r.Some? ==> && r.value != []
                        && NoneIn(r.value, Semicolon)
                        && StartsWith(t[|l|..], r.value)
                        && (|l| + |r.value| == |t| || t[|l| + |r.value|] == ';')
  {
    if StartsWith(t, l) then
      var rest := t[|l|..];
      var n := SpanOut(rest, Semicolon);
      if n > 0 then Some(rest[..n]) else None
    else
      None
  }

  /** `l(\d+)` matched at the start of `t`. */
  function MatchCount(t: string, l: string): (r: Option<string>)
    ensures r.Some? <==> StartsWith(t, l) && |t| > |l| && t[|l|] in Decimal
    ensures r.Some? ==> && r.value != []
                        && AllIn(r.value, Decimal)
                        && StartsWith(t[|l|..], r.value)
                        && (|l| + |r.value| == |t| || t[|l| + |r.value|] !in Decimal)
  {
    if StartsWith(t, l) then
      var rest := t[|l|..];
      var n := SpanIn(rest, Decimal);
      if n > 0 then Some(rest[..n]) else None
    else
      None
  }

  /** `l ?([^;]*);` matched at the start of `t`. The greedy ` ?` takes a
      space when there is one; if no `;` follows, dropping the space does
      not help either, because the space is itself a non-`;` character. So
      the match exists exactly when a `;` follows the label, and the capture
      runs up to the first such `;`. */
  function MatchReference(t: string, l: string): (r: Option<string>)
    ensures r.Some? <==> StartsWith(t, l) && !NoneIn(t[|l|..], Semicolon)
    ensures r.Some? ==> && NoneIn(r.value, Semicolon)
                        && (|| StartsWith(t[|l|..], r.value + ";")
                            || StartsWith(t[|l|..], " " + r.value + ";"))
    ensures r.Some? && t[|l|] == ' ' ==> StartsWith(t[|l|..], " " + r.value + ";")
  {
    if StartsWith(t, l) then
      var rest := t[|l|..];
      var body := if |rest| > 0 && rest[0] == ' ' then rest[1..] else rest;
      var n := SpanOut(body, Semicolon);
      if n < |body| then
        assert body[..n + 1] == body[..n] + ";";
        assert rest == " " + body || rest == body;
        if rest != body then
          assert rest[..n + 2] == " " + body[..n + 1];
          Some(body[..n])
        else
          Some(body[..n])
      else
        assert rest == " " + body ==> rest[1..] == body;
        None
    else
      None
  }

  /** Matching `pat` at the start of `t`, with the captured group. */
  function MatchAt(t: string, pat: Pattern): Option<string> {
    match pat
    case Field(l) => MatchField(t, l)
    case Count(l) => MatchCount(t, l)
    case Reference(l) => MatchReference(t, l)
  }

  /** `pat` matches at position `p` of `s` and at no earlier position. */
  ghost predicate LeftmostAt(s: string, pat: Pattern, p: nat) {
    && p <= |s|
    && MatchAt(s[p..], pat).Some?
    && forall q | 0 <= q < p :: MatchAt(s[q..], pat).None?
  }

  /** No position in `[lo, hi)` matches. */
  ghost predicate NoMatchIn(s: string, pat: Pattern, lo: nat, hi: nat) {
    forall q | lo <= q < hi && q <= |s| :: MatchAt(s[q..], pat).None?
  }

  lemma NoMatchExtend(s: string, pat: Pattern, from: nat, hi: nat)
    requires from < |s| && MatchAt(s[from..], pat).None? && NoMatchIn(s, pat, from + 1, hi)
    ensures NoMatchIn(s, pat, from, hi)
  {
  }

  /** The leftmost position at or after `from` where `pat` matches. */
  function Find(s: string, pat: Pattern, from: nat): (r: Option<nat>)
    requires from <= |s|
    ensures r.Some? ==> && from <= r.value <= |s|
                        && MatchAt(s[r.value..], pat).Some?
                        && NoMatchIn(s, pat, from, r.value)
    ensures r.None? ==> NoMatchIn(s, pat, from, |s| + 1)
    decreases |s| - from
  {
    if MatchAt(s[from..], pat).Some? then Some(from)
    else if from == |s| then None
    else
      var r := Find(s, pat, from + 1);
      assert r.Some? ==> NoMatchIn(s, pat, from, r.value) by {
        if r.Some? {
          NoMatchExtend(s, pat, from, r.value);
        }
      }
      assert r.None? ==> NoMatchIn(s, pat, from, |s| + 1) by {
        if r.None? {
          NoMatchExtend(s, pat, from, |s| + 1);
        }
      }
      r
  }

  /** Python's `re.search(pat, s)` followed by `.group(1)`; `SearchSpec`
      characterises it. */
  function Search(s: string, pat: Pattern): Option<string> {
    match Find(s, pat, 0)
    case Some(p) => MatchAt(s[p..], pat)
    case None => None
  }

  /** A search fails exactly when no position matches, and otherwise
      reports the capture at the leftmost matching position. */
  lemma SearchSpec(s: string, pat: Pattern)
    ensures Search(s, pat).None? <==> forall p | 0 <= p <= |s| :: MatchAt(s[p..], pat).None?
    ensures Search(s, pat).Some? ==> exists p: nat :: LeftmostAt(s, pat, p) && Search(s, pat) == MatchAt(s[p..], pat)
  {
    match Find(s, pat, 0)
    case Some(p) =>
      assert LeftmostAt(s, pat, p) by {
        assert NoMatchIn(s, pat, 0, p);
      }
    case None =>
  }

  /** A field written as caption, value, `;` is captured whole. */
  lemma FieldCaptures(l: string, x: string, rest: string)
    requires x != [] && NoneIn(x, Semicolon)
    ensures MatchField(l + x + ";" + rest, l) == Some(x)
  {
    var t := l + x + ";" + rest;
    assert t[..|l|] == l;
    assert t[|l|..] == x + [';'] + rest;
    SpanOutStops(x, ';', rest, Semicolon);
    assert (x + [';'] + rest)[..|x|] == x;
  }

  /** A count written as caption, digits, `;` is captured whole. */
  lemma CountCaptures(l: string, d: string, rest: string)
    requires d != [] && AllIn(d, Decimal)
    ensures MatchCount(l + d + ";" + rest, l) == Some(d)
  {
    var t := l + d + ";" + rest;
    assert t[..|l|] == l;
    assert t[|l|..] == d + [';'] + rest;
    SpanInStops(d, ';', rest, Decimal);
    assert (d + [';'] + rest)[..|d|] == d;
  }

  /** A reference written as caption, value, `;` is captured whole when the
      value does not itself start with the optional space. */
  lemma ReferenceCaptures(l: string, x: string, rest: string)
    requires NoneIn(x, Semicolon) && (x == [] || x[0] != ' ')
    ensures MatchReference(l + x + ";" + rest, l) == Some(x)
  {
    var t := l + x + ";" + rest;
    assert t[..|l|] == l;
    var body := x + [';'] + rest;
    assert t[|l|..] == body;
    assert body[0] != ' ';
    SpanOutStops(x, ';', rest, Semicolon);
    assert body[..|x|] == x;
  }

  /** A match at `p` is what the search reports when the caption starts
      nowhere before `p`. */
  lemma SearchFindsFirst(s: string, pat: Pattern, p: nat)
    requires p <= |s| && MatchAt(s[p..], pat).Some?
    requires forall q | 0 <= q < p :: !StartsWith(s[q..], pat.caption)
    ensures Search(s, pat) == MatchAt(s[p..], pat)
  {
    SearchSpec(s, pat);
    var p': nat :| LeftmostAt(s, pat, p') && Search(s, pat) == MatchAt(s[p'..], pat);
    assert StartsWith(s[p'..], pat.caption);
  }
}
