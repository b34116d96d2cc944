/** Per-platform cleaning of spreadsheet cells before classification: the
    Tokopedia SKU column, and the TikTok SKU and quantity columns. */
module Cleaning {
  import opened Wrappers
  import opened Text
  import opened Digits
  import opened Patterns

  const Dot: set<char> := {'.'}
  const Quote: set<char> := {'\''}

  /** The text before the first `.`, or all of it when there is none:
      Python's `s.split('.')[0] if '.' in s else s`. */
  function CutAtDot(s: string): (r: string)
    ensures NoneIn(r, Dot)
    ensures StartsWith(s, r)
    ensures NoneIn(s, Dot) ==> r == s
    ensures !NoneIn(s, Dot) ==> StartsWith(s, r + ".")
    ensures r != [] ==> r[0] == s[0]
  {
    var n := SpanOut(s, Dot);
    if n < |s| then
      assert s[..n + 1] == s[..n] + ".";
      s[..n]
    else
      assert s[..n] == s;
      s
  }

  /** The Tokopedia SKU cell: missing becomes the empty string, the text is
      trimmed, and a numeric-formatting artifact such as `12345.0` is cut
      at its first `.`. */
  function TokopediaSku(cell: Option<string>): (sku: string)
    ensures NoneIn(sku, Dot)
    ensures IsStripOf(cell.GetOr(""), Whitespace, sku) || StartsWith(Strip(cell.GetOr("")), sku + ".")
    ensures sku == [] || sku[0] !in Whitespace
    ensures cell.None? ==> sku == ""
  {
    CutAtDot(Strip(cell.GetOr("")))
  }

  /** Cleaning an already clean SKU changes nothing, provided the cut did
      not leave whitespace at its end. */
  lemma TokopediaSkuIdempotent(cell: Option<string>)
    requires Bare(TokopediaSku(cell), Whitespace)
    ensures TokopediaSku(Some(TokopediaSku(cell))) == TokopediaSku(cell)
  {
    var sku := TokopediaSku(cell);
    StripBare(sku, Whitespace);
  }

  /** Cleaning reads the cell's trimmed text, then cuts it at the dot. */
  lemma TokopediaSkuOfText(text: string)
    ensures TokopediaSku(Some(text)) == CutAtDot(Strip(text))
  {
  }

  /** Without that proviso cleaning is not idempotent: `"12 .0"` cleans to
      `"12 "`, which cleans again to `"12"`. */
  lemma TokopediaSkuNotIdempotent(d: string)
    requires d != [] && Bare(d, Whitespace) && NoneIn(d, Dot)
    ensures TokopediaSku(Some(d + " .0")) == d + " "
    ensures TokopediaSku(Some(d + " ")) == d
  {
    SpaceBeforeDotKept(d);
    TrailingSpaceDropped(d);
  }

  lemma SpaceBeforeDotKept(d: string)
    requires d != [] && Bare(d, Whitespace) && NoneIn(d, Dot)
    ensures TokopediaSku(Some(d + " .0")) == d + " "
  {
    var a := d + " .0";
    assert CutAtDot(a) == d + " " by {
      assert a == d + " " + "." + "0";
      CutBeforeDot(d, " ", "0");
    }
    assert Strip(a) == a by {
      assert " .0"[2] !in Whitespace;
      EndsBare(d, " .0");
      StripBare(a, Whitespace);
    }
    TokopediaSkuOfText(a);
  }

  lemma TrailingSpaceDropped(d: string)
    requires d != [] && Bare(d, Whitespace) && NoneIn(d, Dot)
    ensures TokopediaSku(Some(d + " ")) == d
  {
    var b := d + " ";
    StripTrailing(d, " ");
    TokopediaSkuOfText(b);
    assert CutAtDot(d) == d;
  }

  /** Appending text that does not end in whitespace to a bare string keeps
      it bare. */
  lemma EndsBare(d: string, e: string)
    requires d != [] && Bare(d, Whitespace) && e != [] && e[|e| - 1] !in Whitespace
    ensures Bare(d + e, Whitespace)
  {
    var a := d + e;
    assert a[0] == d[0] && a[|a| - 1] == e[|e| - 1];
  }

  /** Trailing whitespace after a bare string is what stripping removes. */
  lemma StripTrailing(d: string, w: string)
    requires Bare(d, Whitespace) && AllIn(w, Whitespace)
    ensures Strip(d + w) == d
  {
    StripSurrounded([], d, w, Whitespace);
    assert [] + d + w == d + w;
  }

  /** Cutting `d + p + "." + q` at its first dot keeps `d + p` when neither
      contains a dot. */
  lemma CutBeforeDot(d: string, p: string, q: string)
    requires NoneIn(d, Dot) && NoneIn(p, Dot)
    ensures CutAtDot(d + p + "." + q) == d + p
  {
    var a := d + p + "." + q;
    var n := |d + p|;
    assert a[..n] == d + p && a[n] == '.';
    var r := CutAtDot(a);
    assert forall i | 0 <= i < n :: a[i] == a[..n][i];
    assert forall i | 0 <= i < |r| :: r[i] == a[i];
  }

  /** The TikTok SKU cell: trimmed of whitespace, then of `'` characters at
      both ends (a quote marks a number stored as text). */
  function TikTokSku(cell: string): (sku: string)
    ensures Bare(sku, Quote)
    ensures IsStripOf(Strip(cell), Quote, sku)
    ensures Bare(Strip(cell), Quote) ==> sku == Strip(cell)
  {
    var s := Strip(cell);
    assert Bare(s, Quote) ==> StripChars(s, Quote) == s by {
      if Bare(s, Quote) {
        StripBare(s, Quote);
      }
    }
    StripChars(s, Quote)
  }

  /** A quote in front of a SKU, as in `'12345`, is dropped. */
  lemma TikTokSkuDropsQuote(d: string)
    requires d != [] && Bare(d, Whitespace) && Bare(d, Quote)
    ensures TikTokSku("'" + d) == d
  {
    QuotedIsBare(d);
    QuoteDropped(d);
  }

  lemma QuotedIsBare(d: string)
    requires d != [] && Bare(d, Whitespace)
    ensures Strip("'" + d) == "'" + d
  {
    var a := "'" + d;
    assert a[0] == '\'' && a[|a| - 1] == d[|d| - 1];
    StripBare(a, Whitespace);
  }

  lemma QuoteDropped(d: string)
    requires Bare(d, Quote)
    ensures StripChars("'" + d, Quote) == d
  {
    StripSurrounded("'", d, [], Quote);
    assert "'" + d + [] == "'" + d;
  }

  /** A quantity cell that reads as a number. */
  predicate Numeric(cell: string) {
    cell != [] && AllIn(cell, Decimal)
  }

  /** The TikTok quantity: a cell that reads as a whole number gives that
      number; anything else, the empty cell included, coerces to 0. */
  function CoerceQuantity(cell: string): (q: nat)
    ensures Numeric(cell) ==> q == Value(cell)
    ensures Numeric(cell) && (|cell| == 1 || cell[0] != '0') ==> Show(q) == cell
    ensures !Numeric(cell) ==> q == 0
  {
    assert Numeric(cell) && (|cell| == 1 || cell[0] != '0') ==> Show(Value(cell)) == cell by {
      if Numeric(cell) && (|cell| == 1 || cell[0] != '0') {
        ShowOfValue(cell);
      }
    }
    if Numeric(cell) then Value(cell) else 0
  }

  /** Coercion reads back every quantity written in decimal. */
  lemma CoerceQuantityRoundTrip(n: nat)
    ensures CoerceQuantity(Show(n)) == n
  {
    ValueOfShow(n);
  }

  lemma CoerceQuantityExamples()
    ensures CoerceQuantity("abc") == 0
    ensures CoerceQuantity("") == 0
    ensures CoerceQuantity("007") == 7
  {
    assert !Numeric("abc") by { assert "abc"[0] !in Decimal; }
    assert Numeric("007");
    assert Value("7") == 7;
    ValueIgnoresLeadingZero("7");
    ValueIgnoresLeadingZero("07");
    assert ['0'] + "7" == "07" && ['0'] + "07" == "007";
  }
}
