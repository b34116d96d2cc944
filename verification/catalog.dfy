/** The product catalog: a read-only map from SKU to display name, loaded
    once per session. Loading is not modelled; a catalog that failed to load
    is simply the empty map. */
module Catalog {
  import opened Wrappers

  type Catalog = map<string, string>

  /** The name reported for a SKU the catalog does not know. */
  const UnknownName: string := "Unknown"

  /** The catalog entry for `sku`, if any. */
  function Lookup(c: Catalog, sku: string): (r: Option<string>)
    ensures r.Some? <==> sku in c
    ensures r.Some? ==> r.value == c[sku]
  {
    if sku in c then Some(c[sku]) else None
  }

  /** `ProductDatabase.is_valid_sku`: the SKU is a key of the catalog. */
  function IsValidSku(c: Catalog, sku: string): (valid: bool)
    ensures valid <==> Lookup(c, sku).Some?
    ensures valid <==> sku in c.Keys
  {
    sku in c
  }

  /** `ProductDatabase.get_product_name`: the catalog's name for a known
      SKU, and "Unknown" otherwise. */
  function ProductName(c: Catalog, sku: string): (name: string)
    ensures IsValidSku(c, sku) ==> name == c[sku]
    ensures !IsValidSku(c, sku) ==> name == UnknownName
  {
    Lookup(c, sku).GetOr(UnknownName)
  }

  /** A catalog that failed to load knows no SKU at all. */
  lemma EmptyCatalogKnowsNothing(sku: string)
    ensures !IsValidSku(map[], sku) && ProductName(map[], sku) == UnknownName
  {
  }
}
