/** Writing a Shopee line item out as annotation text, in the layout the
    marketplace uses. The free-text parser is checked against it: a rendered
    item reads back as the product it was written from. */
module ShopeeRender {
  import opened Wrappers
  import opened Text
  import opened Digits
  import opened Patterns
  import opened Shopee
  import opened Seqs

  /** One labelled field as the annotation writes it: caption, value, `;`. */
  function Entry(caption: string, value: string): string {
    caption + value + ";"
  }

  /** The annotation text of one item: name, variant, quantity, SKU. */
  function Render(p: ShopeeProduct): string {
    Entry(NamePattern.caption, p.name)
      + (Entry(VariantPattern.caption, p.variant)
      + (Entry(QuantityPattern.caption, Show(p.quantity))
      + Entry(SkuPattern.caption, p.sku)))
  }

  /** Products whose rendering reads back unambiguously: tidy fields free of
      `:`, so no caption can start inside a value, and a name and a variant
      for the one-or-more captures to find. */
  predicate Writable(p: ShopeeProduct) {
    && Tidy(p)
    && p.name != [] && p.variant != []
    && ':' !in p.name && ':' !in p.variant && ':' !in p.sku
  }

  /** A colon of `a + ":" + b` is the seam or a colon of `b`. */
  lemma ColonAt(a: string, b: string, k: nat)
    requires ':' !in a && k < |a| + 1 + |b|
    ensures (a + ":" + b)[k] == ':' <==> k == |a| || (|a| < k && b[k - |a| - 1] == ':')
  {
    var s := a + ":" + b;
    assert forall i | 0 <= i < |a| :: s[i] == a[i];
    assert forall i | |a| < i < |s| :: s[i] == b[i - |a| - 1];
  }

  /** Four colon-free pieces joined by colons have their colons at the seams. */
  lemma FourColons(a0: string, a1: string, a2: string, a3: string, a4: string, k: nat)
    requires ':' !in a0 && ':' !in a1 && ':' !in a2 && ':' !in a3 && ':' !in a4
    requires k < |a0| + |a1| + |a2| + |a3| + |a4| + 4
    ensures (a0 + ":" + (a1 + ":" + (a2 + ":" + (a3 + ":" + a4))))[k] == ':' <==>
              || k == |a0|
              || k == |a0| + |a1| + 1
              || k == |a0| + |a1| + |a2| + 2
              || k == |a0| + |a1| + |a2| + |a3| + 3
  {
    var b3 := a3 + ":" + a4;
    var b2 := a2 + ":" + b3;
    var b1 := a1 + ":" + b2;
    ColonAt(a0, b1, k);
    if k > |a0| {
      ColonAt(a1, b2, k - |a0| - 1);
      if k - |a0| - 1 > |a1| {
        var k2 := k - |a0| - |a1| - 2;
        ColonAt(a2, b3, k2);
        if k2 > |a2| {
          ColonAt(a3, a4, k2 - |a2| - 1);
        }
      }
    }
  }

  /** Entries regrouped around the colons closing their captions. */
  lemma Regroup(c0: string, c1: string, c2: string, c3: string, n: string, v: string, d: string, s: string)
    ensures Entry(c0 + ":", n) + (Entry(c1 + ":", v) + (Entry(c2 + ":", d) + Entry(c3 + ":", s)))
         == c0 + ":" + ((n + ";" + c1) + ":" + ((v + ";" + c2) + ":" + ((d + ";" + c3) + ":" + (s + ";"))))
  {
  }

  /** The captions of the four patterns, each cut before its colon. */
  lemma CaptionColons()
    ensures NamePattern.caption == "Nama Produk" + ":"
    ensures VariantPattern.caption == "Nama Variasi" + ":"
    ensures QuantityPattern.caption == "Jumlah" + ":" + " "
    ensures SkuPattern.caption == "Nomor Referensi SKU" + ":"
  {
  }

  /** A rendered item cut at the colons closing its captions. */
  lemma RenderLayout(p: ShopeeProduct)
    ensures Render(p) == "Nama Produk" + ":" + ((p.name + ";" + "Nama Variasi") + ":" + ((p.variant + ";" + "Jumlah") + ":"
                           + ((" " + Show(p.quantity) + ";" + "Nomor Referensi SKU") + ":" + (p.sku + ";"))))
  {
    var d := Show(p.quantity);
    CaptionColons();
    assert Entry("Jumlah" + ":" + " ", d) == Entry("Jumlah" + ":", " " + d);
    Regroup("Nama Produk", "Nama Variasi", "Jumlah", "Nomor Referensi SKU", p.name, p.variant, " " + d, p.sku);
  }

  /** A rendered item holds exactly four colons, one closing each caption. */
  lemma RenderColon(p: ShopeeProduct, k: nat)
    requires Writable(p) && k < |Render(p)|
    ensures Render(p)[k] == ':' <==> || k == 11
                                     || k == |p.name| + 25
                                     || k == |p.name| + |p.variant| + 33
                                     || k == |p.name| + |p.variant| + |Show(p.quantity)| + 55
  {
    var d := Show(p.quantity);
    RenderLayout(p);
    assert ':' !in d by {
      assert forall i | 0 <= i < |d| :: d[i] != ':';
    }
    FourColons("Nama Produk", p.name + ";" + "Nama Variasi", p.variant + ";" + "Jumlah",
               " " + d + ";" + "Nomor Referensi SKU", p.sku + ";", k);
  }

  /** `s` holds colons exactly at the four positions given. */
  ghost predicate ColonsAt(s: string, c0: nat, c1: nat, c2: nat, c3: nat) {
    forall k | 0 <= k < |s| :: s[k] == ':' <==> k == c0 || k == c1 || k == c2 || k == c3
  }

  lemma RenderColons(p: ShopeeProduct)
    requires Writable(p)
    ensures ColonsAt(Render(p), 11, |p.name| + 25, |p.name| + |p.variant| + 33,
                     |p.name| + |p.variant| + |Show(p.quantity)| + 55)
  {
    forall k | 0 <= k < |Render(p)| {
      RenderColon(p, k);
    }
  }

  /** A prefix fixes the characters it covers. */
  lemma StartsWithAt(t: string, l: string, i: nat)
    requires i < |l|
    ensures StartsWith(t, l) ==> i < |t| && t[i] == l[i]
  {
    if StartsWith(t, l) {
      assert t[..|l|][i] == t[i];
    }
  }

  /** With colons only at the seams, the variant caption cannot start before
      the second seam's caption. */
  lemma VariantAbsent(s: string, c0: nat, c1: nat, c2: nat, c3: nat)
    requires ColonsAt(s, c0, c1, c2, c3) && c0 < 12 && 12 <= c1 < c2 < c3 < |s|
    ensures forall q | 0 <= q < c1 - 12 :: !StartsWith(s[q..], VariantPattern.caption)
  {
    forall q | 0 <= q < c1 - 12 ensures !StartsWith(s[q..], VariantPattern.caption) {
      StartsWithAt(s[q..], VariantPattern.caption, 12);
      assert s[q..][12] == s[q + 12];
    }
  }

  /** With colons only at the seams, and no space after the first two, the
      quantity caption cannot start before the third seam's caption. */
  lemma QuantityAbsent(s: string, c0: nat, c1: nat, c2: nat, c3: nat)
    requires ColonsAt(s, c0, c1, c2, c3) && 6 <= c0 < c1 < c2 < c3 < |s|
    requires s[c0 + 1] != ' ' && s[c1 + 1] != ' '
    ensures forall q | 0 <= q < c2 - 6 :: !StartsWith(s[q..], QuantityPattern.caption)
  {
    forall q | 0 <= q < c2 - 6 ensures !StartsWith(s[q..], QuantityPattern.caption) {
      StartsWithAt(s[q..], QuantityPattern.caption, 6);
      StartsWithAt(s[q..], QuantityPattern.caption, 7);
      assert s[q..][6] == s[q + 6] && s[q..][7] == s[q + 7];
      assert s[q + 6] != ':' || s[q + 7] != ' ';
    }
  }

  /** With colons only at the seams, and a `;` shortly before the second and
      third, the SKU caption cannot start before the last seam's caption. */
  lemma SkuAbsent(s: string, c0: nat, c1: nat, c2: nat, c3: nat)
    requires ColonsAt(s, c0, c1, c2, c3) && c0 < 19 <= c1 < c2 < c3 < |s|
    requires s[c1 - 13] == ';' && s[c2 - 7] == ';'
    ensures forall q | 0 <= q < c3 - 19 :: !StartsWith(s[q..], SkuPattern.caption)
  {
    forall q | 0 <= q < c3 - 19 ensures !StartsWith(s[q..], SkuPattern.caption) {
      StartsWithAt(s[q..], SkuPattern.caption, 6);
      StartsWithAt(s[q..], SkuPattern.caption, 12);
      StartsWithAt(s[q..], SkuPattern.caption, 19);
      assert s[q..][6] == s[q + 6] && s[q..][12] == s[q + 12] && s[q..][19] == s[q + 19];
      assert s[q + 19] != ':' || s[q + 6] != 'R' || s[q + 12] != 'n';
    }
  }

  /** Dropping the leading entries of a rendered item leaves the later ones. */
  lemma DropFront(a: string, b: string, c: string)
    ensures (a + (b + c))[|a|..] == b + c
    ensures (a + (b + c))[|a| + |b|..] == c
  {
    assert (a + (b + c))[|a| + |b|..] == (b + c)[|b|..];
  }

  lemma DropThree(a: string, b: string, c: string, d: string)
    ensures (a + (b + (c + d)))[|a| + |b| + |c|..] == d
  {
    DropFront(a, b, c + d);
    assert (c + d)[|c|..] == d;
  }

  /** The characters after the first two colons and the `;` closing the
      first two values, in a layout of colon-separated pieces. */
  lemma LayoutChars(a0: string, n: string, t1: string, v: string, t2: string, a3: string, a4: string)
    requires n != [] && v != []
    ensures var s := a0 + ":" + ((n + ";" + t1) + ":" + ((v + ";" + t2) + ":" + (a3 + ":" + a4)));
            && s[|a0| + 1] == n[0]
            && s[|a0| + 1 + |n|] == ';'
            && s[|a0| + |n| + |t1| + 3] == v[0]
            && s[|a0| + |n| + |t1| + |v| + 3] == ';'
  {
    var b2 := (v + ";" + t2) + ":" + (a3 + ":" + a4);
    var b1 := (n + ";" + t1) + ":" + b2;
    var s := a0 + ":" + b1;
    assert s[|a0| + 1..] == b1;
    assert b1[|n| + |t1| + 2..] == b2;
    assert s[|a0| + |n| + |t1| + 3..] == b2;
  }

  /** In a rendered item the first colon and the second are followed by the
      first characters of the name and the variant, and a `;` sits between
      each of the first two values and the next caption. */
  lemma RenderChars(p: ShopeeProduct)
    requires p.name != [] && p.variant != []
    ensures Render(p)[12] == p.name[0]
    ensures Render(p)[|p.name| + 12] == ';'
    ensures Render(p)[|p.name| + 26] == p.variant[0]
    ensures Render(p)[|p.name| + |p.variant| + 26] == ';'
  {
    RenderLayout(p);
    LayoutChars("Nama Produk", p.name, "Nama Variasi", p.variant, "Jumlah",
                " " + Show(p.quantity) + ";" + "Nomor Referensi SKU", p.sku + ";");
  }

  /** A tidy non-empty value does not start with a space. */
  lemma NoLeadingSpace(x: string)
    requires x != [] && Bare(x, Whitespace)
    ensures x[0] != ' '
  {
    assert IsSpace(' ');
  }

  lemma NameFound(p: ShopeeProduct)
    requires Writable(p)
    ensures Search(Render(p), NamePattern) == Some(p.name)
  {
    var item := Render(p);
    var rest := Entry(VariantPattern.caption, p.variant)
      + (Entry(QuantityPattern.caption, Show(p.quantity)) + Entry(SkuPattern.caption, p.sku));
    FieldCaptures(NamePattern.caption, p.name, rest);
    assert item[0..] == item;
    SearchFindsFirst(item, NamePattern, 0);
  }

  /** The colon positions of a rendered item, as `RenderColons` states them. */
  function Seams(p: ShopeeProduct): (nat, nat, nat, nat) {
    (11, |p.name| + 25, |p.name| + |p.variant| + 33, |p.name| + |p.variant| + |Show(p.quantity)| + 55)
  }

  lemma VariantNotEarly(p: ShopeeProduct)
    requires Writable(p)
    ensures forall q | 0 <= q < |p.name| + 13 :: !StartsWith(Render(p)[q..], VariantPattern.caption)
  {
    RenderColons(p);
    var (c0, c1, c2, c3) := Seams(p);
    VariantAbsent(Render(p), c0, c1, c2, c3);
  }

  lemma QuantityNotEarly(p: ShopeeProduct)
    requires Writable(p)
    ensures forall q | 0 <= q < |p.name| + |p.variant| + 27 :: !StartsWith(Render(p)[q..], QuantityPattern.caption)
  {
    RenderChars(p);
    NoLeadingSpace(p.name);
    NoLeadingSpace(p.variant);
    RenderColons(p);
    var (c0, c1, c2, c3) := Seams(p);
    QuantityAbsent(Render(p), c0, c1, c2, c3);
  }

  lemma SkuNotEarly(p: ShopeeProduct)
    requires Writable(p)
    ensures forall q | 0 <= q < |p.name| + |p.variant| + |Show(p.quantity)| + 36 :: !StartsWith(Render(p)[q..], SkuPattern.caption)
  {
    RenderChars(p);
    RenderColons(p);
    var (c0, c1, c2, c3) := Seams(p);
    SkuAbsent(Render(p), c0, c1, c2, c3);
  }

  lemma VariantFound(p: ShopeeProduct)
    requires Writable(p)
    ensures Search(Render(p), VariantPattern) == Some(p.variant)
  {
    var item := Render(p);
    var e1 := Entry(NamePattern.caption, p.name);
    var rest := Entry(QuantityPattern.caption, Show(p.quantity)) + Entry(SkuPattern.caption, p.sku);
    DropFront(e1, Entry(VariantPattern.caption, p.variant), rest);
    FieldCaptures(VariantPattern.caption, p.variant, rest);
    VariantNotEarly(p);
    SearchFindsFirst(item, VariantPattern, |e1|);
  }

  lemma QuantityFound(p: ShopeeProduct)
    requires Writable(p)
    ensures Search(Render(p), QuantityPattern) == Some(Show(p.quantity))
  {
    var item := Render(p);
    var e1 := Entry(NamePattern.caption, p.name);
    var e2 := Entry(VariantPattern.caption, p.variant);
    var e4 := Entry(SkuPattern.caption, p.sku);
    var tail := Entry(QuantityPattern.caption, Show(p.quantity)) + e4;
    var k := |e1| + |e2|;
    assert item[k..] == tail by {
      DropFront(e1, e2, tail);
    }
    assert MatchAt(item[k..], QuantityPattern) == Some(Show(p.quantity)) by {
      CountCaptures(QuantityPattern.caption, Show(p.quantity), e4);
    }
    assert forall q | 0 <= q < k :: !StartsWith(item[q..], QuantityPattern.caption) by {
      QuantityNotEarly(p);
    }
    SearchFindsFirst(item, QuantityPattern, k);
  }

  /** The SKU written at `k`, with its caption starting nowhere earlier,
      is what the search reports. */
  lemma SkuCapturedAt(s: string, k: nat, sku: string)
    requires k <= |s| && s[k..] == SkuPattern.caption + sku + ";" + []
    requires NoneIn(sku, Semicolon) && (sku == [] || sku[0] != ' ')
    requires forall q | 0 <= q < k :: !StartsWith(s[q..], SkuPattern.caption)
    ensures Search(s, SkuPattern) == Some(sku)
  {
    ReferenceCaptures(SkuPattern.caption, sku, []);
    SearchFindsFirst(s, SkuPattern, k);
  }

  lemma SkuFound(p: ShopeeProduct)
    requires Writable(p)
    ensures Search(Render(p), SkuPattern) == Some(p.sku)
  {
    var e1 := Entry(NamePattern.caption, p.name);
    var e2 := Entry(VariantPattern.caption, p.variant);
    var e3 := Entry(QuantityPattern.caption, Show(p.quantity));
    var e4 := Entry(SkuPattern.caption, p.sku);
    DropThree(e1, e2, e3, e4);
    if p.sku != [] {
      NoLeadingSpace(p.sku);
    }
    SkuNotEarly(p);
    SkuCapturedAt(Render(p), |e1| + |e2| + |e3|, p.sku);
  }

  /** Parsing a rendered item gives back exactly the product written. */
  lemma RenderParse(p: ShopeeProduct)
    requires Writable(p)
    ensures ParseSegment(Render(p)) == Some(p)
  {
    NameFound(p);
    VariantFound(p);
    QuantityFound(p);
    SkuFound(p);
    StripBare(p.name, Whitespace);
    StripBare(p.variant, Whitespace);
    StripBare(p.sku, Whitespace);
    ValueOfShow(p.quantity);
  }

  /** Text without `[` holds no item marker. */
  lemma NoMarker(s: string)
    requires '[' !in s
    ensures !Contains(s, FirstMarker)
  {
    assert forall i | 0 <= i <= |s| - 3 :: OccursAt(s, FirstMarker, i) ==> s[i..i + 3][0] == '[';
  }

  /** A character other than `:` absent from every piece is absent from
      the pieces joined by colons. */
  lemma AbsentFromLayout(x: char, a0: string, a1: string, a2: string, a3: string, a4: string)
    requires x != ':' && x !in a0 && x !in a1 && x !in a2 && x !in a3 && x !in a4
    ensures x !in a0 + ":" + (a1 + ":" + (a2 + ":" + (a3 + ":" + a4)))
  {
  }

  lemma RenderNoBracket(p: ShopeeProduct)
    requires '[' !in p.name && '[' !in p.variant && '[' !in p.sku
    ensures '[' !in Render(p)
  {
    var d := Show(p.quantity);
    assert '[' !in d by {
      assert forall i | 0 <= i < |d| :: d[i] != '[';
    }
    RenderLayout(p);
    AbsentFromLayout('[', "Nama Produk", p.name + ";" + "Nama Variasi", p.variant + ";" + "Jumlah",
                     " " + d + ";" + "Nomor Referensi SKU", p.sku + ";");
  }

  /** A whole annotation holding one rendered item, with no `[` that could
      start an item marker, parses to that one product. */
  lemma RenderParseInfo(p: ShopeeProduct)
    requires Writable(p) && '[' !in p.name && '[' !in p.variant && '[' !in p.sku
    ensures ParseProductInfo(Render(p)) == [p]
  {
    RenderNoBracket(p);
    NoMarker(Render(p));
    RenderParse(p);
    SingleItemParse(Render(p));
  }

  /** A rendered item starts with `N` and ends with `;`, so trimming leaves
      it as it is. */
  lemma RenderBare(p: ShopeeProduct)
    ensures Render(p) != [] && Bare(Render(p), Whitespace)
  {
    var head := Entry(NamePattern.caption, p.name);
    var tail := Entry(VariantPattern.caption, p.variant)
                  + (Entry(QuantityPattern.caption, Show(p.quantity))
                  + Entry(SkuPattern.caption, p.sku));
    var last := Entry(SkuPattern.caption, p.sku);
    assert head[0] == 'N';
    assert last[|last| - 1] == ';';
    EndsLike(Entry(VariantPattern.caption, p.variant) + Entry(QuantityPattern.caption, Show(p.quantity)),
             last);
    assert tail[|tail| - 1] == ';';
    EndsLike(head, tail);
    assert !IsSpace('N') && !IsSpace(';');
  }

  lemma EndsLike(x: string, y: string)
    requires |x| > 0 && |y| > 0
    ensures (x + y)[0] == x[0] && (x + y)[|x + y| - 1] == y[|y| - 1]
  {
  }

  /** An annotation of two rendered items behind `[1]` and `[2]` parses to
      the two products, first to second. */
  lemma RenderParseTwo(p: ShopeeProduct, q: ShopeeProduct)
    requires Writable(p) && '[' !in p.name && '[' !in p.variant && '[' !in p.sku
    requires Writable(q) && '[' !in q.name && '[' !in q.variant && '[' !in q.sku
    ensures ParseProductInfo("[1]" + Render(p) + "[2]" + Render(q)) == [p, q]
  {
    var rp, rq := Render(p), Render(q);
    assert rp != [] && Bare(rp, Whitespace) && '[' !in rp && ParseSegment(rp) == Some(p) by {
      RenderNoBracket(p);
      RenderBare(p);
      RenderParse(p);
    }
    assert rq != [] && Bare(rq, Whitespace) && '[' !in rq && ParseSegment(rq) == Some(q) by {
      RenderNoBracket(q);
      RenderBare(q);
      RenderParse(q);
    }
    TwoItemParse(rp, rq);
    PairOfSingles(p, q);
  }

  lemma PairOfSingles(p: ShopeeProduct, q: ShopeeProduct)
    ensures AsSeq(Some(p)) + AsSeq(Some(q)) == [p, q]
  {
    assert [p] + [q] == [p, q];
  }
}
