/** Order lines and their classification against the catalog, common to the
    three platform processors. */
module Orders {
  import opened Wrappers
  import opened Seqs
  import opened Catalog

  /** The marketplace an export comes from; it selects the processor. */
  datatype Platform = Shopee | Tokopedia | TikTok

  /** One order line as a processor extracts it, before classification.
      Tokopedia exports carry no variant. */
  datatype RawLine = RawLine(sku: string, name: string, variant: Option<string>, quantity: int)

  /** A line whose SKU the catalog knows: the SKU, the catalog's name for
      it, and the quantity (the columns `Kode SKU`, `Nama Produk`, `Jumlah`). */
  datatype ValidLine = ValidLine(sku: string, name: string, quantity: int)

  /** A line whose SKU is missing or unknown: the raw product name, the
      variant where the platform has one, and the quantity; never the SKU. */
  datatype InvalidLine = InvalidLine(name: string, variant: Option<string>, quantity: int)

  datatype Classified = Valid(valid: ValidLine) | Invalid(invalid: InvalidLine)

  function RawQuantity(l: RawLine): int { l.quantity }
  function ValidQuantity(v: ValidLine): int { v.quantity }
  function InvalidQuantity(v: InvalidLine): int { v.quantity }

  /** Whether a processor routes a SKU to the valid records. The Shopee
      processor also rejects the empty SKU explicitly; the other two ask
      only the catalog. */
  predicate Accepts(c: Catalog, platform: Platform, sku: string) {
    IsValidSku(c, sku) && (platform.Shopee? ==> sku != "")
  }

  /** Routes one line: a known SKU gives a valid record named from the
      catalog, anything else an invalid record without the SKU. */
  function Classify(c: Catalog, platform: Platform, line: RawLine): (r: Classified)
    ensures r.Valid? <==> Accepts(c, platform, line.sku)
    ensures r.Valid? ==> r.valid == ValidLine(line.sku, c[line.sku], line.quantity)
    ensures r.Invalid? ==> r.invalid == InvalidLine(line.name, line.variant, line.quantity)
  {
    if Accepts(c, platform, line.sku) then
      Valid(ValidLine(line.sku, ProductName(c, line.sku), line.quantity))
    else
      Invalid(InvalidLine(line.name, line.variant, line.quantity))
  }

  /** The two record lists a processor builds, in input order. */
  datatype Outcome = Outcome(valid: seq<ValidLine>, invalid: seq<InvalidLine>)

  /** Routes every line; each lands in exactly one of the two lists. */
  function Partition(c: Catalog, platform: Platform, lines: seq<RawLine>): (o: Outcome)
    ensures |o.valid| + |o.invalid| == |lines|
    ensures forall v | v in o.valid :: Accepts(c, platform, v.sku) && v.name == c[v.sku]
    ensures Sum(o.valid, ValidQuantity) + Sum(o.invalid, InvalidQuantity) == Sum(lines, RawQuantity)
  {
    if |lines| == 0 then Outcome([], [])
    else
      var rest := Partition(c, platform, lines[1..]);
      match Classify(c, platform, lines[0])
      case Valid(v) => Outcome([v] + rest.valid, rest.invalid)
      case Invalid(x) => Outcome(rest.valid, [x] + rest.invalid)
  }

  /** Every line is found in the list its classification names. */
  lemma {:induction false} PartitionKeepsEveryLine(c: Catalog, platform: Platform, lines: seq<RawLine>)
    ensures forall k | 0 <= k < |lines| && Accepts(c, platform, lines[k].sku) ::
              ValidLine(lines[k].sku, c[lines[k].sku], lines[k].quantity) in Partition(c, platform, lines).valid
    ensures forall k | 0 <= k < |lines| && !Accepts(c, platform, lines[k].sku) ::
              InvalidLine(lines[k].name, lines[k].variant, lines[k].quantity) in Partition(c, platform, lines).invalid
  {
    if |lines| > 0 {
      PartitionKeepsEveryLine(c, platform, lines[1..]);
      assert forall k | 1 <= k < |lines| :: lines[1..][k - 1] == lines[k];
    }
  }

  /** Every invalid record comes from a line whose SKU was not accepted. */
  lemma {:induction false} PartitionInvalidOrigin(c: Catalog, platform: Platform, lines: seq<RawLine>)
    ensures forall x | x in Partition(c, platform, lines).invalid ::
              exists k | 0 <= k < |lines| :: !Accepts(c, platform, lines[k].sku)
                                             && x == InvalidLine(lines[k].name, lines[k].variant, lines[k].quantity)
  {
    if |lines| > 0 {
      PartitionInvalidOrigin(c, platform, lines[1..]);
      var o := Partition(c, platform, lines);
      forall x | x in o.invalid
        ensures exists k | 0 <= k < |lines| :: !Accepts(c, platform, lines[k].sku)
                                               && x == InvalidLine(lines[k].name, lines[k].variant, lines[k].quantity)
      {
        if x !in Partition(c, platform, lines[1..]).invalid {
          assert x == InvalidLine(lines[0].name, lines[0].variant, lines[0].quantity);
        } else {
          var k :| 0 <= k < |lines[1..]| && !Accepts(c, platform, lines[1..][k].sku)
                   && x == InvalidLine(lines[1..][k].name, lines[1..][k].variant, lines[1..][k].quantity);
          assert lines[1..][k] == lines[k + 1];
        }
      }
    }
  }

  /** Every valid record comes from a line whose SKU was accepted, named
      from the catalog and carrying that line's quantity. */
  lemma {:induction false} PartitionValidOrigin(c: Catalog, platform: Platform, lines: seq<RawLine>)
    ensures forall v | v in Partition(c, platform, lines).valid ::
              exists k | 0 <= k < |lines| :: Accepts(c, platform, lines[k].sku)
                                             && v == ValidLine(lines[k].sku, c[lines[k].sku], lines[k].quantity)
  {
    if |lines| > 0 {
      PartitionValidOrigin(c, platform, lines[1..]);
      var o := Partition(c, platform, lines);
      forall v | v in o.valid
        ensures exists k | 0 <= k < |lines| :: Accepts(c, platform, lines[k].sku)
                                               && v == ValidLine(lines[k].sku, c[lines[k].sku], lines[k].quantity)
      {
        if v !in Partition(c, platform, lines[1..]).valid {
          assert v == ValidLine(lines[0].sku, c[lines[0].sku], lines[0].quantity);
        } else {
          var k :| 0 <= k < |lines[1..]| && Accepts(c, platform, lines[1..][k].sku)
                   && v == ValidLine(lines[1..][k].sku, c[lines[1..][k].sku], lines[1..][k].quantity);
          assert lines[1..][k] == lines[k + 1];
        }
      }
    }
  }

  /** With an empty catalog (the catalog failed to load) every line is
      invalid. */
  lemma {:induction false} EmptyCatalogRejectsAll(platform: Platform, lines: seq<RawLine>)
    ensures Partition(map[], platform, lines).valid == []
    ensures |Partition(map[], platform, lines).invalid| == |lines|
  {
    if |lines| > 0 {
      EmptyCatalogRejectsAll(platform, lines[1..]);
    }
  }
}
