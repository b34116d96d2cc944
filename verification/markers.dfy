/** Splitting free text on bracketed item-index markers such as `[1]`,
    `[12]`: Python's `re.split(r'\[\d+\]', text)`. */
module Markers {
  import opened Text
  import opened Digits
  import opened Patterns

  /** The first `m` characters of `t` are `[`, one or more decimal digits
      and `]`. */
  predicate Bracketed(t: string, m: nat) {
    3 <= m <= |t| && t[0] == '[' && t[m - 1] == ']' && AllIn(t[1..m - 1], Decimal)
  }

  /** Length of the marker `[digits]` at the start of `t`, or 0 when `t` does
      not start with one. The digit run is greedy; a shorter run would be
      followed by a digit rather than `]`, so backtracking finds nothing
      more. */
  function MarkerLen(t: string): (n: nat)
    ensures n == 0 || Bracketed(t, n)
  {
    if |t| > 0 && t[0] == '[' then
      var d := SpanIn(t[1..], Decimal);
      if d > 0 && 1 + d < |t| && t[1 + d] == ']' then
        assert t[1..d + 1] == t[1..][..d];
        d + 2
      else 0
    else 0
  }

  /** Whenever `t` starts with a marker, `MarkerLen` finds it and all of it:
      there is never a second, longer or shorter, reading. */
  lemma MarkerLenExact(t: string, m: nat)
    requires Bracketed(t, m)
    ensures MarkerLen(t) == m
  {
    assert t[1..][..m - 2] == t[1..m - 1];
    SpanInExact(t[1..], m - 2, Decimal);
  }

  /** The digit run stops exactly at the first non-digit. */
  lemma SpanInExact(x: string, m: nat, cs: set<char>)
    requires m < |x| && AllIn(x[..m], cs) && x[m] !in cs
    ensures SpanIn(x, cs) == m
  {
    assert x == x[..m] + [x[m]] + x[m + 1..];
    SpanInStops(x[..m], x[m], x[m + 1..], cs);
  }

  /** `m` is exactly one marker. */
  predicate IsMarker(m: string) {
    |m| >= 3 && MarkerLen(m) == |m|
  }

  /** No marker starts anywhere in `p`. */
  predicate MarkerFree(p: string) {
    forall q | 0 <= q < |p| :: MarkerLen(p[q..]) == 0
  }

  /** A marker read off a prefix of `u` is the marker at the start of `u`. */
  lemma MarkerOfPrefix(t: string, u: string)
    requires StartsWith(u, t) && MarkerLen(t) > 0
    ensures MarkerLen(u) == MarkerLen(t)
  {
    var n := MarkerLen(t);
    assert u[..n] == t[..n];
    var d := SpanIn(t[1..], Decimal);
    var e := SpanIn(u[1..], Decimal);
    assert t[1 + d] == u[1 + d] == ']';
    assert forall k | 0 <= k < d :: t[1..][..d][k] == u[1..][k];
    assert forall k | 0 <= k < d :: u[1..][k] in Decimal;
    assert u[1..][d] == ']';
  }

  /** The marker at the start of `u`, cut out on its own, is one marker. */
  lemma MarkerCutOut(u: string)
    requires MarkerLen(u) > 0
    ensures IsMarker(u[..MarkerLen(u)])
  {
    var n := MarkerLen(u);
    var t := u[..n];
    var d := n - 2;
    assert t[1..][..d] == u[1..][..d];
    assert t[1..][d] == ']';
    assert SpanIn(t[1..], Decimal) == d;
  }

  /** Pieces of text and the markers that separated them. */
  datatype Cut = Cut(pieces: seq<string>, marks: seq<string>)

  /** Reassembles pieces and separating markers in order. */
  function Join(pieces: seq<string>, marks: seq<string>): string
    requires |pieces| == |marks| + 1
    decreases |marks|
  {
    if |marks| == 0 then pieces[0]
    else pieces[0] + marks[0] + Join(pieces[1..], marks[1..])
  }

  lemma JoinStartsWithFirst(pieces: seq<string>, marks: seq<string>)
    requires |pieces| == |marks| + 1
    ensures StartsWith(Join(pieces, marks), pieces[0])
  {
    if |marks| > 0 {
      assert (pieces[0] + marks[0] + Join(pieces[1..], marks[1..]))[..|pieces[0]|] == pieces[0];
    }
  }

  /** Prepending a character to the first piece prepends it to the join. */
  lemma JoinConsFirst(ch: char, pieces: seq<string>, marks: seq<string>)
    requires |pieces| == |marks| + 1
    ensures Join([[ch] + pieces[0]] + pieces[1..], marks) == [ch] + Join(pieces, marks)
  {
    var p' := [[ch] + pieces[0]] + pieces[1..];
    assert p'[1..] == pieces[1..];
  }

  /** A character that does not start a marker, followed by a marker-free
      prefix of the rest of `s`, forms a marker-free piece. */
  lemma ConsMarkerFree(s: string, first: string)
    requires |s| > 0 && MarkerLen(s) == 0
    requires StartsWith(s[1..], first) && MarkerFree(first)
    ensures MarkerFree([s[0]] + first)
  {
    var head := [s[0]] + first;
    assert StartsWith(s, head);
    if MarkerLen(head) > 0 {
      MarkerOfPrefix(head, s);
    }
    forall q | 1 <= q < |head|
      ensures MarkerLen(head[q..]) == 0
    {
      assert head[q..] == first[q - 1..];
    }
  }

  /** One left-to-right scan: at each position either a marker is cut out,
      ending the current piece, or one character joins the current piece. */
  function SplitKeep(s: string): (c: Cut)
    ensures |c.pieces| == |c.marks| + 1
    decreases |s|
  {
    if |s| == 0 then Cut([""], [])
    else
      var n := MarkerLen(s);
      if n > 0 then
        var c := SplitKeep(s[n..]);
        Cut([""] + c.pieces, [s[..n]] + c.marks)
      else
        var c := SplitKeep(s[1..]);
        Cut([[s[0]] + c.pieces[0]] + c.pieces[1..], c.marks)
  }

  /** The scan loses nothing: pieces and markers reassemble the text. */
  lemma {:induction false} SplitKeepJoins(s: string)
    ensures Join(SplitKeep(s).pieces, SplitKeep(s).marks) == s
    decreases |s|
  {
    if |s| > 0 {
      var n := MarkerLen(s);
      if n > 0 {
        var c := SplitKeep(s[n..]);
        assert SplitKeep(s) == Cut([""] + c.pieces, [s[..n]] + c.marks);
        SplitKeepJoins(s[n..]);
        JoinAfterMarker(s, n, c);
      } else {
        var c := SplitKeep(s[1..]);
        assert SplitKeep(s) == Cut([[s[0]] + c.pieces[0]] + c.pieces[1..], c.marks) by {
          SplitKeepCons(s);
        }
        assert Join([[s[0]] + c.pieces[0]] + c.pieces[1..], c.marks) == [s[0]] + s[1..] by {
          SplitKeepJoins(s[1..]);
          JoinConsFirst(s[0], c.pieces, c.marks);
        }
        assert s == [s[0]] + s[1..];
      }
    }
  }

  /** A marker at the front of `s` opens an empty first piece. */
  lemma JoinAfterMarker(s: string, n: nat, c: Cut)
    requires 0 < n <= |s|
    requires |c.pieces| == |c.marks| + 1 && Join(c.pieces, c.marks) == s[n..]
    ensures Join([""] + c.pieces, [s[..n]] + c.marks) == s
  {
    var ps, ms := [""] + c.pieces, [s[..n]] + c.marks;
    assert ps[1..] == c.pieces && ms[1..] == c.marks;
    assert s == s[..n] + s[n..];
  }

  /** Every separator the scan cuts out is one whole marker. */
  lemma {:induction false} SplitKeepMarks(s: string)
    ensures forall k | 0 <= k < |SplitKeep(s).marks| :: IsMarker(SplitKeep(s).marks[k])
    decreases |s|
  {
    if |s| > 0 {
      var n := MarkerLen(s);
      if n > 0 {
        var c := SplitKeep(s[n..]);
        SplitKeepMarks(s[n..]);
        MarkerCutOut(s);
        var m := [s[..n]] + c.marks;
        assert m == SplitKeep(s).marks;
        assert forall k | 1 <= k < |m| :: m[k] == c.marks[k - 1];
      } else {
        SplitKeepMarks(s[1..]);
      }
    }
  }

  /** No piece contains a marker: every marker in the text was cut out. */
  lemma {:induction false} SplitKeepPiecesFree(s: string)
    ensures forall k | 0 <= k < |SplitKeep(s).pieces| :: MarkerFree(SplitKeep(s).pieces[k])
    decreases |s|
  {
    if |s| > 0 {
      var n := MarkerLen(s);
      var c' := SplitKeep(s);
      if n > 0 {
        var c := SplitKeep(s[n..]);
        SplitKeepPiecesFree(s[n..]);
        assert c'.pieces == [""] + c.pieces;
        forall k | 0 <= k < |c'.pieces| ensures MarkerFree(c'.pieces[k]) {
          if k > 0 {
            assert c'.pieces[k] == c.pieces[k - 1];
          } else {
            assert c'.pieces[k] == "";
          }
        }
      } else {
        var c := SplitKeep(s[1..]);
        SplitKeepPiecesFree(s[1..]);
        SplitKeepJoins(s[1..]);
        JoinStartsWithFirst(c.pieces, c.marks);
        ConsMarkerFree(s, c.pieces[0]);
        assert c'.pieces == [[s[0]] + c.pieces[0]] + c.pieces[1..];
        forall k | 0 <= k < |c'.pieces| ensures MarkerFree(c'.pieces[k]) {
          if k > 0 {
            assert c'.pieces[k] == c.pieces[k];
          }
        }
      }
    }
  }

  /** `pieces` and `marks` alternate, every mark is one whole marker, and
      together they reassemble `s`. */
  predicate CutsInto(s: string, pieces: seq<string>, marks: seq<string>) {
    && |pieces| == |marks| + 1
    && (forall k | 0 <= k < |marks| :: IsMarker(marks[k]))
    && Join(pieces, marks) == s
  }

  /** `re.split(r'\[\d+\]', s)`: the pieces between markers, in order,
      including empty pieces before the first, between adjacent, and after
      the last marker. */
  function Split(s: string): (pieces: seq<string>)
    ensures |pieces| >= 1
    ensures forall k | 0 <= k < |pieces| :: MarkerFree(pieces[k])
    ensures exists marks :: CutsInto(s, pieces, marks)
  {
    var c := SplitKeep(s);
    SplitKeepJoins(s);
    SplitKeepMarks(s);
    SplitKeepPiecesFree(s);
    assert CutsInto(s, c.pieces, c.marks);
    c.pieces
  }

  /** A marker at the front of the text is cut out, opening an empty piece. */
  lemma SplitKeepAfterMarker(m: string, rest: string)
    requires |m| > 0 && MarkerLen(m + rest) == |m|
    ensures SplitKeep(m + rest) == Cut([""] + SplitKeep(rest).pieces, [m] + SplitKeep(rest).marks)
  {
    assert (m + rest)[|m|..] == rest && (m + rest)[..|m|] == m;
  }

  /** A first character that does not start a marker joins the first piece
      of the rest. */
  lemma SplitKeepCons(s: string)
    requires |s| > 0 && MarkerLen(s) == 0
    ensures var c := SplitKeep(s[1..]);
            SplitKeep(s) == Cut([[s[0]] + c.pieces[0]] + c.pieces[1..], c.marks)
  {
  }

  /** Text without `[` joins the first piece of what follows it whole. */
  lemma {:induction false} SplitKeepNoBracket(a: string, rest: string)
    requires '[' !in a
    ensures var c := SplitKeep(rest);
            SplitKeep(a + rest) == Cut([a + c.pieces[0]] + c.pieces[1..], c.marks)
    decreases |a|
  {
    var c := SplitKeep(rest);
    if |a| == 0 {
      assert a + rest == rest;
      assert a + c.pieces[0] == c.pieces[0];
      assert [c.pieces[0]] + c.pieces[1..] == c.pieces;
    } else {
      var a' := a[1..];
      var c1 := SplitKeep(a' + rest);
      assert c1 == Cut([a' + c.pieces[0]] + c.pieces[1..], c.marks) by {
        NotInTail(a, '[');
        SplitKeepNoBracket(a', rest);
      }
      assert SplitKeep(a + rest) == Cut([[a[0]] + c1.pieces[0]] + c1.pieces[1..], c1.marks) by {
        assert a[0] in a;
        assert (a + rest)[0] == a[0] && (a + rest)[1..] == a' + rest;
        SplitKeepCons(a + rest);
      }
      assert [a[0]] + (a' + c.pieces[0]) == a + c.pieces[0];
    }
  }

  lemma NotInTail(a: string, ch: char)
    requires |a| > 0 && ch !in a
    ensures ch !in a[1..]
  {
    assert forall i | 0 <= i < |a[1..]| :: a[1..][i] == a[i + 1];
  }

  /** Two bracket-free texts each behind a one-digit marker split into an
      empty leading piece and the two texts. */
  lemma SplitTwo(d1: char, a: string, d2: char, b: string)
    requires d1 in Decimal && d2 in Decimal && '[' !in a && '[' !in b
    ensures Split(['[', d1, ']'] + a + ['[', d2, ']'] + b) == [""] + ([a] + [b])
  {
    var m1, m2 := ['[', d1, ']'], ['[', d2, ']'];
    var tail := m2 + b;
    var s := m1 + (a + tail);
    assert ['[', d1, ']'] + a + ['[', d2, ']'] + b == s;
    assert Bracketed(s, 3) by { assert s[1..2] == [d1]; }
    assert Bracketed(tail, 3) by { assert tail[1..2] == [d2]; }
    MarkerLenExact(s, 3);
    MarkerLenExact(tail, 3);
    var cb := SplitKeep(b);
    SplitKeepNoBracket(b, []);
    assert b + [] == b;
    assert cb.pieces == [b] && cb.marks == [];
    var ct := SplitKeep(tail);
    SplitKeepAfterMarker(m2, b);
    assert ct.pieces == ["", b];
    var ca := SplitKeep(a + tail);
    SplitKeepNoBracket(a, tail);
    assert ca.pieces == [a, b] by { assert a + "" == a; }
    SplitKeepAfterMarker(m1, a + tail);
    assert SplitKeep(s).pieces == [""] + ([a] + [b]);
  }

}
