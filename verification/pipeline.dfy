/** The three processors end to end: extract order lines from an export,
    classify them against the catalog, aggregate the valid records and sort
    the invalid ones. */
module Pipeline {
  import opened Wrappers
  import opened Seqs
  import opened StrOrder
  import opened Catalog
  import opened Orders
  import opened Aggregate
  import Shopee
  import Cleaning

  /** A processor's result: the valid table (`Kode SKU`, `Nama Produk`,
      `Jumlah`) and the invalid table. */
  datatype Summary = Summary(valid: seq<ValidLine>, invalid: seq<InvalidLine>)

  /** The pair of empty tables a processor returns when reading fails. */
  const NoSummary: Summary := Summary([], [])

  /** Total quantity of the raw lines carrying `sku`. */
  function SkuTotal(lines: seq<RawLine>, sku: string): int {
    if |lines| == 0 then 0
    else (if lines[0].sku == sku then lines[0].quantity else 0) + SkuTotal(lines[1..], sku)
  }

  /** For an accepted SKU, the valid records carrying its catalog key hold
      exactly the quantities of the raw lines carrying it. */
  lemma {:induction false} PartitionSkuTotal(c: Catalog, platform: Platform, lines: seq<RawLine>, sku: string)
    requires Accepts(c, platform, sku)
    ensures SumFor(Partition(c, platform, lines).valid, (sku, c[sku])) == SkuTotal(lines, sku)
  {
    if |lines| > 0 {
      PartitionSkuTotal(c, platform, lines[1..], sku);
      var rest := Partition(c, platform, lines[1..]);
      if Accepts(c, platform, lines[0].sku) {
        var v := ValidLine(lines[0].sku, c[lines[0].sku], lines[0].quantity);
        assert Partition(c, platform, lines).valid == [v] + rest.valid;
        assert ([v] + rest.valid)[1..] == rest.valid;
      } else {
        assert lines[0].sku != sku;
      }
    }
  }

  /** Partitioning distributes over concatenation of the input. */
  lemma PartitionConcat(c: Catalog, platform: Platform, a: seq<RawLine>, b: seq<RawLine>)
    ensures Partition(c, platform, a + b).valid == Partition(c, platform, a).valid + Partition(c, platform, b).valid
    ensures Partition(c, platform, a + b).invalid == Partition(c, platform, a).invalid + Partition(c, platform, b).invalid
  {
    PartitionConcatValid(c, platform, a, b);
    PartitionConcatInvalid(c, platform, a, b);
  }

  lemma {:induction false} PartitionConcatValid(c: Catalog, platform: Platform, a: seq<RawLine>, b: seq<RawLine>)
    ensures Partition(c, platform, a + b).valid == Partition(c, platform, a).valid + Partition(c, platform, b).valid
  {
    if |a| == 0 {
      assert a + b == b;
    } else {
      assert (a + b)[0] == a[0] && (a + b)[1..] == a[1..] + b;
      PartitionConcatValid(c, platform, a[1..], b);
      var ra, rb := Partition(c, platform, a[1..]).valid, Partition(c, platform, b).valid;
      if Accepts(c, platform, a[0].sku) {
        var v := ValidLine(a[0].sku, c[a[0].sku], a[0].quantity);
        assert [v] + (ra + rb) == ([v] + ra) + rb;
      }
    }
  }

  lemma {:induction false} PartitionConcatInvalid(c: Catalog, platform: Platform, a: seq<RawLine>, b: seq<RawLine>)
    ensures Partition(c, platform, a + b).invalid == Partition(c, platform, a).invalid + Partition(c, platform, b).invalid
  {
    if |a| == 0 {
      assert a + b == b;
    } else {
      assert (a + b)[0] == a[0] && (a + b)[1..] == a[1..] + b;
      PartitionConcatInvalid(c, platform, a[1..], b);
      var ra, rb := Partition(c, platform, a[1..]).invalid, Partition(c, platform, b).invalid;
      if !Accepts(c, platform, a[0].sku) {
        var x := InvalidLine(a[0].name, a[0].variant, a[0].quantity);
        assert [x] + (ra + rb) == ([x] + ra) + rb;
      }
    }
  }

  /** Classifies the lines, aggregates the valid records and sorts the
      invalid ones by name. Because every valid record is named from the
      catalog, a SKU has one row at most, so the rows are strictly
      ascending by SKU and the tie order of the sort never matters. */
  function Summarize(c: Catalog, platform: Platform, lines: seq<RawLine>): (s: Summary)
    ensures forall i, j | 0 <= i < j < |s.valid| :: Less(s.valid[i].sku, s.valid[j].sku)
    ensures forall v | v in s.valid :: Accepts(c, platform, v.sku) && v.name == c[v.sku]
    ensures forall i | 0 <= i < |s.valid| :: s.valid[i].quantity == SkuTotal(lines, s.valid[i].sku)
    ensures forall l | l in lines && Accepts(c, platform, l.sku) ::
              exists i | 0 <= i < |s.valid| :: s.valid[i].sku == l.sku
    ensures forall v | v in s.valid :: exists l | l in lines :: Accepts(c, platform, l.sku) && l.sku == v.sku
    ensures multiset(s.invalid) == multiset(Partition(c, platform, lines).invalid)
    ensures NameSorted(s.invalid)
    ensures Sum(s.valid, ValidQuantity) + Sum(s.invalid, InvalidQuantity) == Sum(lines, RawQuantity)
    ensures lines == [] ==> s == NoSummary
  {
    var o := Partition(c, platform, lines);
    ValidTable(c, platform, lines);
    SortByNameSorted(o.invalid);
    SortByNameTotal(o.invalid);
    Summary(AggregateValid(o.valid), SortByName(o.invalid))
  }

  /** The valid table of a set of lines: named from the catalog, strictly
      ascending by SKU, each row holding its SKU's total, a row for every
      accepted line and no row without one. */
  lemma ValidTable(c: Catalog, platform: Platform, lines: seq<RawLine>)
    ensures var t := AggregateValid(Partition(c, platform, lines).valid);
            && (forall i, j | 0 <= i < j < |t| :: Less(t[i].sku, t[j].sku))
            && (forall v | v in t :: Accepts(c, platform, v.sku) && v.name == c[v.sku])
            && (forall i | 0 <= i < |t| :: t[i].quantity == SkuTotal(lines, t[i].sku))
            && (forall l | l in lines && Accepts(c, platform, l.sku) :: exists i | 0 <= i < |t| :: t[i].sku == l.sku)
            && (forall v | v in t :: exists l | l in lines :: Accepts(c, platform, l.sku) && l.sku == v.sku)
  {
    var o := Partition(c, platform, lines);
    var t := AggregateValid(o.valid);
    forall v | v in t
      ensures Accepts(c, platform, v.sku) && v.name == c[v.sku]
    {
      assert KeyOf(v) in Keys(t);
      var w :| w in o.valid && KeyOf(w) == KeyOf(v);
    }
    TableRowOrigin(c, platform, lines);
    forall i, j | 0 <= i < j < |t|
      ensures Less(t[i].sku, t[j].sku)
    {
      assert t[i] in t && t[j] in t;
      NotAfterIsLessOrEqual(t[i].sku, t[j].sku);
    }
    forall i | 0 <= i < |t|
      ensures t[i].quantity == SkuTotal(lines, t[i].sku)
    {
      assert t[i] in t;
      PartitionSkuTotal(c, platform, lines, t[i].sku);
    }
    PartitionKeepsEveryLine(c, platform, lines);
    forall l | l in lines && Accepts(c, platform, l.sku)
      ensures exists i | 0 <= i < |t| :: t[i].sku == l.sku
    {
      var k :| 0 <= k < |lines| && lines[k] == l;
      var w := ValidLine(l.sku, c[l.sku], l.quantity);
      assert KeyOf(w) in Keys(o.valid);
      assert KeyOf(w) in Keys(t);
      var v :| v in t && KeyOf(v) == KeyOf(w);
      var i :| 0 <= i < |t| && t[i] == v;
    }
  }

  /** Each row of the valid table has an accepted line with its SKU. */
  lemma TableRowOrigin(c: Catalog, platform: Platform, lines: seq<RawLine>)
    ensures var t := AggregateValid(Partition(c, platform, lines).valid);
            forall v | v in t :: exists l | l in lines :: Accepts(c, platform, l.sku) && l.sku == v.sku
  {
    var o := Partition(c, platform, lines);
    var t := AggregateValid(o.valid);
    PartitionValidOrigin(c, platform, lines);
    forall v | v in t
      ensures exists l | l in lines :: Accepts(c, platform, l.sku) && l.sku == v.sku
    {
      assert KeyOf(v) in Keys(t);
      var w :| w in o.valid && KeyOf(w) == KeyOf(v);
      var k :| 0 <= k < |lines| && Accepts(c, platform, lines[k].sku)
               && w == ValidLine(lines[k].sku, c[lines[k].sku], lines[k].quantity);
      assert lines[k] in lines;
    }
  }

  /** Summaries of two exports combine into the summary of both: the valid
      tables re-aggregate to the joint table and the invalid records are
      the union of both lists. */
  lemma SummarizeConcat(c: Catalog, platform: Platform, a: seq<RawLine>, b: seq<RawLine>)
    ensures AggregateValid(Summarize(c, platform, a).valid + Summarize(c, platform, b).valid)
            == Summarize(c, platform, a + b).valid
    ensures multiset(Summarize(c, platform, a + b).invalid)
            == multiset(Summarize(c, platform, a).invalid) + multiset(Summarize(c, platform, b).invalid)
  {
    PartitionConcat(c, platform, a, b);
    MergeAggregates(Partition(c, platform, a).valid, Partition(c, platform, b).valid);
  }

  // ---- Shopee ---------------------------------------------------------

  /** The order line of one parsed Shopee product. */
  function ShopeeLine(p: Shopee.ShopeeProduct): RawLine {
    RawLine(p.sku, p.name, Some(p.variant), p.quantity)
  }

  /** The order lines of one product-information cell: the products
      parsed from a text cell, nothing from any other cell. */
  function CellLines(cell: Option<string>): (lines: seq<RawLine>)
    ensures cell.None? ==> lines == []
    ensures cell.Some? ==> lines == Map(Shopee.ParseProductInfo(cell.value), ShopeeLine)
  {
    match cell
    case None => []
    case Some(text) => Map(Shopee.ParseProductInfo(text), ShopeeLine)
  }

  /** The order lines of the product-information column (column H), one
      cell per order, in column order. */
  function ShopeeLines(column: seq<Option<string>>): seq<RawLine> {
    FlatMap(column, CellLines)
  }

  /** Cells are read independently: the lines of a column are the lines of
      its parts. */
  lemma ShopeeLinesConcat(a: seq<Option<string>>, b: seq<Option<string>>)
    ensures ShopeeLines(a + b) == ShopeeLines(a) + ShopeeLines(b)
  {
    FlatMapConcat(a, b, CellLines);
  }

  /** A line belongs to the column's lines exactly when it is a product
      parsed from one of its text cells. */
  lemma ShopeeLinesMembers(column: seq<Option<string>>, l: RawLine)
    ensures l in ShopeeLines(column) <==>
            exists k | 0 <= k < |column| && column[k].Some? ::
              exists p | p in Shopee.ParseProductInfo(column[k].value) :: l == ShopeeLine(p)
  {
    FlatMapMembers(column, CellLines, l);
    forall k | 0 <= k < |column| && column[k].Some?
      ensures l in CellLines(column[k]) <==>
              exists p | p in Shopee.ParseProductInfo(column[k].value) :: l == ShopeeLine(p)
    {
      MapMembers(Shopee.ParseProductInfo(column[k].value), ShopeeLine, l);
    }
  }

  /** `ShopeeProcessor.process_file`: `None` stands for a workbook that
      cannot be read, which yields two empty tables. */
  function ProcessShopee(c: Catalog, column: Option<seq<Option<string>>>): (s: Summary)
    ensures column.None? ==> s == NoSummary
    ensures column.Some? ==> s == Summarize(c, Platform.Shopee, ShopeeLines(column.value))
    ensures forall v | v in s.valid :: v.sku != "" && v.sku in c
  {
    match column
    case None => NoSummary
    case Some(cells) => Summarize(c, Platform.Shopee, ShopeeLines(cells))
  }

  // ---- Tokopedia ------------------------------------------------------

  /** The columns a Tokopedia processor reads from one data row: the SKU
      cell (`None` when empty), the product name and the quantity. */
  datatype TokopediaRow = TokopediaRow(sku: Option<string>, name: string, quantity: int)

  function TokopediaLine(r: TokopediaRow): RawLine {
    RawLine(Cleaning.TokopediaSku(r.sku), r.name, None, r.quantity)
  }

  /** `TokopediaProcessor.process_file`; the invalid records carry no
      variant. */
  function ProcessTokopedia(c: Catalog, rows: Option<seq<TokopediaRow>>): (s: Summary)
    ensures rows.None? ==> s == NoSummary
    ensures rows.Some? ==> s == Summarize(c, Platform.Tokopedia, Map(rows.value, TokopediaLine))
    ensures forall x | x in s.invalid :: x.variant.None?
  {
    match rows
    case None => NoSummary
    case Some(rs) =>
      var lines := Map(rs, TokopediaLine);
      var s := Summarize(c, Platform.Tokopedia, lines);
      NoVariantsNoInvalidVariants(c, Platform.Tokopedia, lines);
      forall x | x in s.invalid
        ensures x.variant.None?
      {
        assert x in multiset(s.invalid);
      }
      s
  }

  /** Lines without a variant give invalid records without one. */
  lemma {:induction false} NoVariantsNoInvalidVariants(c: Catalog, platform: Platform, lines: seq<RawLine>)
    requires forall k | 0 <= k < |lines| :: lines[k].variant.None?
    ensures forall x | x in Partition(c, platform, lines).invalid :: x.variant.None?
  {
    if |lines| > 0 {
      NoVariantsNoInvalidVariants(c, platform, lines[1..]);
    }
  }

  // ---- TikTok ---------------------------------------------------------

  /** The text of the cells a TikTok processor reads from one row (columns
      G to J): SKU, product name, variation and quantity. */
  datatype TikTokRow = TikTokRow(sku: string, name: string, variant: string, quantity: string)

  function TikTokLine(r: TikTokRow): RawLine {
    RawLine(Cleaning.TikTokSku(r.sku), r.name, Some(r.variant), Cleaning.CoerceQuantity(r.quantity))
  }

  /** The data rows of a sheet read without a header: everything after the
      first two rows, as `iloc[2:]` selects. */
  function TikTokBody(rows: seq<TikTokRow>): (body: seq<TikTokRow>)
    ensures |rows| <= 2 ==> body == []
    ensures |rows| > 2 ==> |body| == |rows| - 2 && forall k | 0 <= k < |body| :: body[k] == rows[k + 2]
  {
    if |rows| <= 2 then [] else rows[2..]
  }

  /** `TikTokProcessor.process_file` on the rows of the sheet, the two
      leading rows included. */
  function ProcessTikTok(c: Catalog, rows: Option<seq<TikTokRow>>): (s: Summary)
    ensures rows.None? ==> s == NoSummary
    ensures rows.Some? ==> s == Summarize(c, Platform.TikTok, Map(TikTokBody(rows.value), TikTokLine))
    ensures rows.Some? && |rows.value| <= 2 ==> s == NoSummary
    ensures forall v | v in s.valid :: v.quantity >= 0
  {
    match rows
    case None => NoSummary
    case Some(rs) =>
      var lines := Map(TikTokBody(rs), TikTokLine);
      assert forall l | l in lines :: l.quantity >= 0 by {
        MapMembersNonNegative(TikTokBody(rs));
      }
      SummaryNonNegative(c, Platform.TikTok, lines);
      Summarize(c, Platform.TikTok, lines)
  }

  lemma MapMembersNonNegative(rows: seq<TikTokRow>)
    ensures forall l | l in Map(rows, TikTokLine) :: l.quantity >= 0
  {
    forall l | l in Map(rows, TikTokLine)
      ensures l.quantity >= 0
    {
      MapMembers(rows, TikTokLine, l);
    }
  }

  /** Lines without negative quantities give a valid table without them. */
  lemma SummaryNonNegative(c: Catalog, platform: Platform, lines: seq<RawLine>)
    requires forall l | l in lines :: l.quantity >= 0
    ensures forall v | v in Summarize(c, platform, lines).valid :: v.quantity >= 0
  {
    var s := Summarize(c, platform, lines);
    forall v | v in s.valid
      ensures v.quantity >= 0
    {
      var i :| 0 <= i < |s.valid| && s.valid[i] == v;
      SkuTotalNonNegative(lines, v.sku);
    }
  }

  lemma {:induction false} SkuTotalNonNegative(lines: seq<RawLine>, sku: string)
    requires forall l | l in lines :: l.quantity >= 0
    ensures SkuTotal(lines, sku) >= 0
  {
    if |lines| > 0 {
      assert lines[0] in lines;
      assert forall l | l in lines[1..] :: l in lines;
      SkuTotalNonNegative(lines[1..], sku);
    }
  }
}
