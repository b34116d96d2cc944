/** The Shopee free-text order annotation parser: one cell of text describes
    one or more line items, each with four labelled fields. */
module Shopee {
  import opened Wrappers
  import opened Text
  import opened Digits
  import opened Patterns
  import opened Markers
  import opened Seqs

  /** One line item read from the annotation text. */
  datatype ShopeeProduct = ShopeeProduct(name: string, variant: string, quantity: nat, sku: string)

  /** The text whose presence switches on splitting into several items. */
  const FirstMarker: string := "[1]"

  const NamePattern: Pattern := Field("Nama Produk:")
  const VariantPattern: Pattern := Field("Nama Variasi:")
  /** Exactly one space after the colon: `Jumlah:3` and `Jumlah:  3` do not match. */
  const QuantityPattern: Pattern := Count("Jumlah: ")
  const SkuPattern: Pattern := Reference("Nomor Referensi SKU:")

  /** The text fields of a parsed product are trimmed and hold no `;`. */
  predicate TidyText(s: string) {
    Bare(s, Whitespace) && NoneIn(s, Semicolon)
  }

  predicate Tidy(p: ShopeeProduct) {
    TidyText(p.name) && TidyText(p.variant) && TidyText(p.sku)
  }

  /** What a successful search for each kind of pattern captures. */
  lemma SearchCapture(s: string, pat: Pattern)
    requires Search(s, pat).Some?
    ensures pat.Field? ==> Search(s, pat).value != [] && NoneIn(Search(s, pat).value, Semicolon)
    ensures pat.Count? ==> Search(s, pat).value != [] && AllIn(Search(s, pat).value, Decimal)
    ensures pat.Reference? ==> NoneIn(Search(s, pat).value, Semicolon)
  {
    SearchSpec(s, pat);
    var p: nat :| LeftmostAt(s, pat, p) && Search(s, pat) == MatchAt(s[p..], pat);
  }

  /** A captured text value, trimmed, is tidy. */
  lemma StripTidy(v: string)
    requires NoneIn(v, Semicolon)
    ensures TidyText(Strip(v))
  {
    StripKeepsAbsence(v, Whitespace, Semicolon);
  }

  /** Reads one item. It yields a product exactly when the name, variant and
      quantity patterns all match; the SKU is optional. */
  function ParseSegment(item: string): (r: Option<ShopeeProduct>)
    ensures r.Some? <==> && Search(item, NamePattern).Some?
                         && Search(item, VariantPattern).Some?
                         && Search(item, QuantityPattern).Some?
    ensures r.Some? ==> Tidy(r.value)
    ensures r.Some? ==> && r.value.name == Strip(Search(item, NamePattern).value)
                        && r.value.variant == Strip(Search(item, VariantPattern).value)
    ensures r.Some? && Search(item, SkuPattern).None? ==> r.value.sku == ""
    ensures r.Some? && Search(item, SkuPattern).Some? ==> r.value.sku == Strip(Search(item, SkuPattern).value)
    ensures r.Some? ==> AllIn(Search(item, QuantityPattern).value, Decimal)
                        && r.value.quantity == Value(Search(item, QuantityPattern).value)
  {
    var name := Search(item, NamePattern);
    var variant := Search(item, VariantPattern);
    var quantity := Search(item, QuantityPattern);
    var sku := Search(item, SkuPattern);
    if name.Some? && variant.Some? && quantity.Some? then
      var n := Strip(name.value);
      var v := Strip(variant.value);
      var code := if sku.Some? then Strip(sku.value) else "";
      assert TidyText(n) by {
        SearchCapture(item, NamePattern);
        StripTidy(name.value);
      }
      assert TidyText(v) by {
        SearchCapture(item, VariantPattern);
        StripTidy(variant.value);
      }
      assert AllIn(quantity.value, Decimal) by {
        SearchCapture(item, QuantityPattern);
      }
      assert TidyText(code) by {
        if sku.Some? {
          SearchCapture(item, SkuPattern);
          StripTidy(sku.value);
        }
      }
      Some(ShopeeProduct(n, v, Value(quantity.value), code))
    else
      None
  }

  /** A marker-free string has marker-free pieces. */
  lemma MarkerFreeSlice(p: string, i: nat, j: nat)
    requires MarkerFree(p) && i <= j <= |p|
    ensures MarkerFree(p[i..j])
  {
    forall q | 0 <= q < j - i
      ensures MarkerLen(p[i..j][q..]) == 0
    {
      var t := p[i..j][q..];
      assert StartsWith(p[i + q..], t);
      if MarkerLen(t) > 0 {
        MarkerOfPrefix(t, p[i + q..]);
      }
    }
  }

  /** Trimming a marker-free piece leaves it marker-free. */
  lemma StripMarkerFree(piece: string, cs: set<char>)
    requires MarkerFree(piece)
    ensures MarkerFree(StripChars(piece, cs))
  {
    var t := StripChars(piece, cs);
    var i: nat :| StripAt(piece, cs, i, t);
    StripAtMarkerFree(piece, cs, i, t);
  }

  lemma StripAtMarkerFree(s: string, cs: set<char>, i: nat, r: string)
    requires MarkerFree(s) && StripAt(s, cs, i, r)
    ensures MarkerFree(r)
  {
    MarkerFreeSlice(s, i, i + |r|);
  }

  /** A piece survives as its trimmed text when that is not empty. */
  function NonBlank(piece: string): (r: Option<string>)
    ensures r.Some? <==> Strip(piece) != []
    ensures r.Some? ==> r.value == Strip(piece)
    ensures r.Some? && MarkerFree(piece) ==> MarkerFree(r.value)
  {
    var t := Strip(piece);
    assert MarkerFree(piece) ==> MarkerFree(t) by {
      if MarkerFree(piece) {
        StripMarkerFree(piece, Whitespace);
      }
    }
    if t != [] then Some(t) else None
  }

  /** `items` are the trimmed texts of the pieces that are not blank: every
      such text is among them and nothing else is. */
  ghost predicate TrimmedPieces(pieces: seq<string>, items: seq<string>) {
    && (forall k | 0 <= k < |pieces| :: Strip(pieces[k]) != [] ==> Strip(pieces[k]) in items)
    && (forall x | x in items :: exists k | 0 <= k < |pieces| :: x == Strip(pieces[k]))
  }

  /** `[item.strip() for item in pieces if item.strip()]`. */
  function Survivors(pieces: seq<string>): (items: seq<string>)
    ensures |items| <= |pieces|
    ensures forall k | 0 <= k < |items| :: items[k] != [] && Bare(items[k], Whitespace)
    ensures TrimmedPieces(pieces, items)
    ensures (forall k | 0 <= k < |pieces| :: MarkerFree(pieces[k])) ==>
              forall k | 0 <= k < |items| :: MarkerFree(items[k])
  {
    SurvivorsShape(pieces);
    SurvivorsTrimmed(pieces);
    FilterMap(pieces, NonBlank)
  }

  lemma SurvivorsShape(pieces: seq<string>)
    ensures forall k | 0 <= k < |FilterMap(pieces, NonBlank)| ::
              var x := FilterMap(pieces, NonBlank)[k];
              && x != [] && Bare(x, Whitespace)
              && ((forall j | 0 <= j < |pieces| :: MarkerFree(pieces[j])) ==> MarkerFree(x))
  {
    var items := FilterMap(pieces, NonBlank);
    FilterMapOrigin(pieces, NonBlank);
    forall k | 0 <= k < |items|
      ensures && items[k] != [] && Bare(items[k], Whitespace)
              && ((forall j | 0 <= j < |pieces| :: MarkerFree(pieces[j])) ==> MarkerFree(items[k]))
    {
      assert items[k] in items;
      var j :| 0 <= j < |pieces| && NonBlank(pieces[j]) == Some(items[k]);
    }
  }

  lemma SurvivorsTrimmed(pieces: seq<string>)
    ensures TrimmedPieces(pieces, FilterMap(pieces, NonBlank))
  {
    var items := FilterMap(pieces, NonBlank);
    FilterMapKeeps(pieces, NonBlank);
    FilterMapOrigin(pieces, NonBlank);
    forall x | x in items
      ensures exists k | 0 <= k < |pieces| :: x == Strip(pieces[k])
    {
      var j :| 0 <= j < |pieces| && NonBlank(pieces[j]) == Some(x);
    }
  }

  /** Trimming a concatenation of pieces trims each part, in order: an item
      appears once for every piece it comes from. */
  lemma SurvivorsConcat(a: seq<string>, b: seq<string>)
    ensures Survivors(a + b) == Survivors(a) + Survivors(b)
  {
    FilterMapConcat(a, b, NonBlank);
  }

  /** One piece survives as its trimmed text exactly when that is not empty. */
  lemma SurvivorsOne(piece: string)
    ensures Strip(piece) != [] ==> Survivors([piece]) == [Strip(piece)]
    ensures Strip(piece) == [] ==> Survivors([piece]) == []
  {
    FilterMapSingle(piece, NonBlank);
  }

  /** The item descriptions of one annotation. When the text contains `[1]`
      it is cut at every `[digits]` marker and the trimmed non-empty pieces
      are the items, in order; otherwise the whole, untrimmed text is the
      one item. */
  function Items(text: string): (items: seq<string>)
    ensures !Contains(text, FirstMarker) ==> items == [text]
    ensures Contains(text, FirstMarker) ==>
              forall k | 0 <= k < |items| :: items[k] != [] && Bare(items[k], Whitespace) && MarkerFree(items[k])
    ensures Contains(text, FirstMarker) ==>
              exists pieces, marks :: && CutsInto(text, pieces, marks)
                                      && (forall k | 0 <= k < |pieces| :: MarkerFree(pieces[k]))
                                      && items == Survivors(pieces)
                                      && |items| <= |marks| + 1
                                      && TrimmedPieces(pieces, items)
  {
    if Contains(text, FirstMarker) then
      var pieces := Split(text);
      var marks :| CutsInto(text, pieces, marks);
      Survivors(pieces)
    else
      [text]
  }

  /** `ShopeeProcessor.parse_product_info`: every product it returns comes
      from one item of the text and is tidy; there are never more products
      than items. */
  function ParseProductInfo(text: string): (products: seq<ShopeeProduct>)
    ensures |products| <= |Items(text)|
    ensures forall k | 0 <= k < |products| :: Tidy(products[k])
    ensures forall p | p in products :: exists item | item in Items(text) :: ParseSegment(item) == Some(p)
    ensures forall item | item in Items(text) && ParseSegment(item).Some? :: ParseSegment(item).value in products
    ensures !Contains(text, FirstMarker) ==> |products| <= 1
  {
    var items := Items(text);
    var products := FilterMap(items, ParseSegment);
    FilterMapKeeps(items, ParseSegment);
    FilterMapOrigin(items, ParseSegment);
    assert forall k | 0 <= k < |products| :: Tidy(products[k]) by {
      forall k | 0 <= k < |products|
        ensures Tidy(products[k])
      {
        assert products[k] in products;
      }
    }
    products
  }

  /** The products one item contributes: its parsed product, or none. */
  function ItemProducts(item: string): seq<ShopeeProduct> {
    AsSeq(ParseSegment(item))
  }

  /** Products are listed item by item, in item order, one for every item
      that parses: the append loop over the items. */
  lemma ProductsPerItem(text: string)
    ensures ParseProductInfo(text) == FlatMap(Items(text), ItemProducts)
  {
    FilterMapIsFlatMap(Items(text), ParseSegment, ItemProducts);
  }

  /** Text without an item marker is one item: it yields the product that
      item parses to, or nothing. */
  lemma SingleItemParse(text: string)
    requires !Contains(text, FirstMarker)
    ensures ParseSegment(text).Some? ==> ParseProductInfo(text) == [ParseSegment(text).value]
    ensures ParseSegment(text).None? ==> ParseProductInfo(text) == []
  {
    var products := ParseProductInfo(text);
    assert Items(text) == [text];
    if ParseSegment(text).Some? {
      assert ParseSegment(text).value in products;
    }
  }

  /** Two bare, non-empty, bracket-free item descriptions behind `[1]` and
      `[2]` are the two items of the text, in order. */
  lemma TwoItems(a: string, b: string)
    requires a != [] && b != [] && Bare(a, Whitespace) && Bare(b, Whitespace)
    requires '[' !in a && '[' !in b
    ensures Items(FirstMarker + a + "[2]" + b) == [a] + [b]
  {
    var text := FirstMarker + a + "[2]" + b;
    assert Contains(text, FirstMarker) by {
      assert OccursAt(text, FirstMarker, 0);
    }
    MarkedItems(text);
    SplitTwo('1', a, '2', b);
    BareSurvivors(a, b);
  }

  /** An empty piece is dropped; bare non-empty pieces survive unchanged. */
  lemma BareSurvivors(a: string, b: string)
    requires a != [] && b != [] && Bare(a, Whitespace) && Bare(b, Whitespace)
    ensures Survivors([""] + ([a] + [b])) == [a] + [b]
  {
    assert Survivors([a] + [b]) == [a] + [b] by {
      SurvivorsConcat([a], [b]);
      BareSurvivor(a);
      BareSurvivor(b);
    }
    assert Survivors([""]) == [] by {
      SurvivorsOne("");
    }
    SurvivorsConcat([""], [a] + [b]);
  }

  lemma BareSurvivor(a: string)
    requires a != [] && Bare(a, Whitespace)
    ensures Survivors([a]) == [a]
  {
    StripBare(a, Whitespace);
    SurvivorsOne(a);
  }

  lemma ProductsOfItems(text: string)
    ensures ParseProductInfo(text) == FilterMap(Items(text), ParseSegment)
  {
  }

  /** Text holding `[1]` has as items the survivors of its split. */
  lemma MarkedItems(text: string)
    requires Contains(text, FirstMarker)
    ensures Items(text) == Survivors(Split(text))
  {
  }

  /** Two items behind `[1]` and `[2]` parse in their written order: the
      result is what the first item yields followed by what the second
      yields. */
  lemma TwoItemParse(a: string, b: string)
    requires a != [] && b != [] && Bare(a, Whitespace) && Bare(b, Whitespace)
    requires '[' !in a && '[' !in b
    ensures ParseProductInfo(FirstMarker + a + "[2]" + b)
              == AsSeq(ParseSegment(a)) + AsSeq(ParseSegment(b))
  {
    var text := FirstMarker + a + "[2]" + b;
    assert ParseProductInfo(text) == FilterMap([a] + [b], ParseSegment) by {
      TwoItems(a, b);
      ProductsOfItems(text);
    }
    FilterMapConcat([a], [b], ParseSegment);
    FilterMapSingle(a, ParseSegment);
    FilterMapSingle(b, ParseSegment);
  }
}
