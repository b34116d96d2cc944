# E-commerce order processor: a Dafny model of the order-normalisation core

The processor takes marketplace order exports from Shopee, Tokopedia and
TikTok. It checks each order line's SKU against a product catalog and
produces two tables:

- the **valid** table has one row per (SKU, catalog name) with the summed
  quantity, sorted by SKU;
- the **invalid** table lists the lines whose SKU is missing or unknown,
  sorted by product name.

Shopee exports carry the products of an order as one free-text annotation
per cell, so Shopee lines are first parsed out of that text with regular
expressions. Tokopedia and TikTok exports carry one line per row, but their
SKU and quantity cells need cleaning.

This project models that core in Dafny 4.11 and proves properties of it:

- the text operations it relies on: Python's `str.strip`, `re.split` on
  `[digits]` markers, `re.search` with the four annotation patterns, and
  `int` on digit strings;
- the Shopee free-text parser;
- the per-platform cell cleaning;
- catalog lookup;
- classification into valid and invalid lines;
- the pandas group-by-sum-and-sort aggregation;
- the three `process_file` pipelines end to end.

Modules, one per file:

| module | file | concern |
|---|---|---|
| `Wrappers` | wrappers.dfy | `Option` |
| `Seqs` | seqs.dfy | map, filter-map, flat-map, sums |
| `Text` | text.dfy | whitespace, `strip`, prefix scans, substring test |
| `StrOrder` | strorder.dfy | Python's string order |
| `Digits` | digits.dfy | decimal digit strings and their values |
| `Patterns` | patterns.dfy | the annotation regular expressions and leftmost search |
| `Markers` | markers.dfy | `re.split(r'\[\d+\]', ·)` |
| `Shopee` | shopee.dfy | `parse_product_info` |
| `ShopeeRender` | render.dfy | writing an item in the annotation layout, the parser's inverse |
| `Catalog` | catalog.dfy | `ProductDatabase` lookups |
| `Cleaning` | cleaning.dfy | Tokopedia and TikTok cell cleaning |
| `Orders` | orders.dfy | order lines and classification |
| `Aggregate` | aggregate.dfy | grouping, summing and sorting |
| `Pipeline` | pipeline.dfy | the three processors end to end |

### Notes on the source's behaviour

- **Empty SKUs.** Only the Shopee processor rejects an empty SKU explicitly
  (`not product.sku`). The Tokopedia and TikTok processors ask only the
  catalog, so a catalog with an empty-string key would accept an empty SKU
  there. `Orders.Accepts` keeps this per-platform difference.
- **No batch merge.** app.py processes one file at a time and has no
  operation that merges several files' results. What such a merge would
  rely on is proved as a statement about the aggregation: aggregating
  per-file tables again gives the table of all lines together
  (`Aggregate.MergeAggregates`, `Pipeline.SummarizeConcat`).
- **Tokopedia SKU cleaning.** app.py strips the cell and then cuts it at
  the first `.`, without stripping again. So `"12 .0"` cleans to `"12 "`,
  and cleaning that again gives `"12"`. Cleaning twice equals cleaning once
  exactly when the first result has no trailing whitespace.
- **Tie order.** The source sorts the grouped table by SKU alone, with an
  unstable sort. Every valid row is named from the catalog, so a SKU has at
  most one row and the valid table is strictly ascending by SKU
  (`Pipeline.Summarize`): ties never arise. The order among invalid records
  with equal names is left open by the source; the model uses a stable
  insertion.

## Model

| member | source | states |
|---|---|---|
| Text.StripChars | app.py:193 | `s.strip(chars)`: the result neither starts nor ends with a stripped character, and it is `s` with runs of those characters removed from both ends |
| Text.Strip | app.py:58 | argument-less `strip()`: the same with Python's whitespace set |
| Text.StripUnique | app.py:58 | the strip description determines the result: any string satisfying it is the one `StripChars` returns |
| Text.StripIdempotent | app.py:58 | stripping twice equals stripping once |
| Text.StripBare | app.py:58 | a string with no strippable character at either end is returned unchanged |
| Text.StripKeepsAbsence | app.py:71-72 | stripping introduces no character, so a capture free of `;` stays free of it |
| Text.StripSurrounded | app.py:193 | stripping `w1 + d + w2`, with `w1` and `w2` made only of stripped characters and `d` bare, gives exactly `d` |
| StrOrder.LessTrichotomy | app.py:114 | the string order used by `sort_values` is total and asymmetric |
| StrOrder.LessTransitive | app.py:114 | the string order is transitive |
| Digits.ValueOfShow | app.py:73 | `int` reads back the decimal rendering of every natural number |
| Digits.ShowOfValue | app.py:73 | a canonical digit string is the rendering of its value |
| Digits.ValueIgnoresLeadingZero | app.py:73 | a leading zero does not change the value `int` reads |
| Patterns.MatchField | app.py:64-65 | `label([^;]+)` at a fixed position matches iff the label is there followed by a non-`;` character; the capture is the whole `;`-free run |
| Patterns.MatchCount | app.py:66 | `Jumlah: (\d+)` at a fixed position matches iff a digit follows the label; the capture is the whole digit run |
| Patterns.MatchReference | app.py:67 | `label ?([^;]*);` matches iff a `;` follows the label; the capture runs to the first `;`, after one optional space |
| Patterns.Find | app.py:64-67 | the scan returns the first position at or after its start where the pattern matches, or none if none does |
| Patterns.SearchSpec | app.py:64-67 | `re.search(...).group(1)` gives none iff no position matches; otherwise it gives the capture at the leftmost matching position |
| Patterns.SearchFindsFirst | app.py:64-67 | a match at a position before which the label never starts is the one the search reports |
| Patterns.FieldCaptures | app.py:64-65 | a label followed by a non-empty `;`-free value and `;` captures exactly that value |
| Patterns.CountCaptures | app.py:66 | `Jumlah: ` followed by digits and `;` captures exactly those digits |
| Patterns.ReferenceCaptures | app.py:67 | the SKU label followed by a `;`-free value not starting with a space, then `;`, captures exactly that value |
| Markers.MarkerLen | app.py:57 | a marker is `[`, one or more digits, `]` |
| Markers.MarkerLenExact | app.py:57 | whenever the text starts with `[`, digits, `]`, that is the marker found, whole: the digit run is never cut short or overrun |
| Markers.SplitKeepNoBracket | app.py:57 | text without `[` is never cut: it is prepended to the first piece of what follows |
| Markers.SplitTwo | app.py:57 | two bracket-free texts, each behind a one-digit marker, split into an empty first piece and the two texts, in order |
| Markers.SplitKeepJoins | app.py:57 | the pieces and the markers cut out reassemble the text |
| Markers.SplitKeepMarks | app.py:57 | every separator cut out is one whole marker |
| Markers.SplitKeepPiecesFree | app.py:57 | no marker remains inside any piece |
| Markers.Split | app.py:57 | `re.split` gives at least one piece, every piece is free of markers, and the pieces reassemble the text with markers between them |
| Shopee.ParseSegment | app.py:62-76 | an item gives a product iff the name, variant and quantity patterns all match; the fields are the trimmed captures; the SKU is `""` when its pattern does not match; the quantity is the value of the captured digits |
| Seqs.FilterMapConcat | app.py:58 | filtering a concatenation filters each part and concatenates the results, so order and repetitions are kept |
| Shopee.Survivors | app.py:58 | every item is the trimmed form of a piece and the trimmed form of every non-blank piece is an item; items are non-empty and trimmed |
| Shopee.SurvivorsConcat | app.py:58 | the comprehension keeps order: the items of two runs of pieces are those of the first run followed by those of the second |
| Shopee.SurvivorsOne | app.py:58 | one piece gives its trimmed form as the one item when that is not blank, and nothing when it is |
| Shopee.Items | app.py:56-60 | without `[1]` the whole text is the one item; with it the items are the survivors, in order, of the pieces of a marker split of the text, none holding a marker |
| Shopee.TwoItems | app.py:56-58 | a text `[1]a[2]b`, with `a` and `b` trimmed, non-empty and free of `[`, has exactly the items `a` then `b` |
| Shopee.ParseProductInfo | app.py:53-81 | every product comes from some item and every item that parses contributes its product; products are tidy; without `[1]` there is at most one product |
| Shopee.ProductsPerItem | app.py:62-81 | the products are, item by item in order, what each item yields: its product or nothing |
| Shopee.TwoItemParse | app.py:53-81 | a text `[1]a[2]b` of two such items yields what `a` yields followed by what `b` yields |
| Shopee.SingleItemParse | app.py:56-60 | a text without `[1]` is parsed as one item: it yields that item's product or nothing |
| ShopeeRender.RenderParse | app.py:62-76 | an item written as `Nama Produk:n;Nama Variasi:v;Jumlah: q;Nomor Referensi SKU:s;` with tidy, colon-free fields and a non-empty name and variant parses back to exactly `(n, v, q, s)` |
| ShopeeRender.RenderParseInfo | app.py:53-81 | a whole annotation holding one such item, with no `[` in its fields, parses to exactly that one product |
| ShopeeRender.RenderParseTwo | app.py:53-81 | the annotation `[1]` item of `p`, `[2]` item of `q` parses to exactly `[p, q]`, in that order |
| Catalog.IsValidSku | app.py:34-35 | a SKU is valid iff it is a key of the catalog |
| Catalog.ProductName | app.py:31-32 | a known SKU gets its catalog name, any other SKU gets `"Unknown"` |
| Catalog.EmptyCatalogKnowsNothing | app.py:27-29 | when loading fails the catalog is empty and no SKU is valid |
| Cleaning.CutAtDot | app.py:138 | the result is the longest dot-free prefix of the text, followed in the text by a `.` whenever it is shorter |
| Cleaning.TokopediaSku | app.py:136-138 | a missing cell gives `""`; otherwise the result is dot-free and either the trimmed cell itself or the part of it before `.` |
| Cleaning.TokopediaSkuIdempotent | app.py:136-138 | cleaning a cleaned SKU changes nothing when the first cleaning left no trailing whitespace |
| Cleaning.TokopediaSkuNotIdempotent | app.py:136-138 | without that proviso cleaning twice differs from cleaning once: `d + " .0"` cleans to `d + " "`, which cleans to `d` |
| Cleaning.TikTokSku | app.py:193 | the result is the trimmed cell with `'` removed at both ends, and is the trimmed cell itself when that has no quote at either end |
| Cleaning.TikTokSkuDropsQuote | app.py:193 | a SKU written as `'` followed by the SKU cleans to the SKU |
| Cleaning.CoerceQuantity | app.py:194 | a cell of decimal digits gives its value, and when the cell has no leading zero the result's decimal rendering is the cell itself; any other cell, the empty one included, gives 0 |
| Cleaning.CoerceQuantityRoundTrip | app.py:194 | coercion reads back every quantity written in decimal |
| Orders.Classify | app.py:95-107 | a line is valid iff its SKU is accepted; a valid record carries the SKU, the catalog name and the quantity, an invalid one the raw name, variant and quantity |
| Orders.Partition | app.py:143-158 | every line lands in exactly one list; valid records are accepted and named from the catalog; the quantity total is preserved |
| Orders.PartitionKeepsEveryLine | app.py:208-219 | every line appears, as its record, in the list its classification names |
| Orders.PartitionInvalidOrigin | app.py:96-101 | every invalid record comes from a line whose SKU was not accepted |
| Orders.PartitionValidOrigin | app.py:96-101 | every valid record comes from a line whose SKU was accepted, with that line's SKU and quantity and the catalog name |
| Orders.EmptyCatalogRejectsAll | app.py:27-29 | with an empty catalog every line is invalid |
| Aggregate.Insert | app.py:113 | adding a record to a table gives the table's keys plus the record's key |
| Aggregate.InsertOrdered | app.py:113-114 | adding a record keeps a table strictly ordered by (SKU, name) |
| Aggregate.InsertSums | app.py:113 | adding a record raises exactly its own key's sum, by its quantity |
| Aggregate.RowHoldsSum | app.py:113 | in an ordered table a row holds its key's whole sum |
| Aggregate.Group | app.py:113-114 | grouping gives an ordered table with exactly the input's keys and the same quantity total |
| Aggregate.AggregateValid | app.py:112-114 | one row per (SKU, name) key of the input, holding that key's summed quantity, with rows ascending by SKU; the total is preserved; empty input gives an empty table |
| Aggregate.TableDetermined | app.py:113-114 | two ordered tables with the same keys and per-key sums are equal: the aggregate does not depend on line order |
| Aggregate.MergeAggregates | app.py:112-114 | re-aggregating two aggregated tables together gives the aggregate of all their lines |
| Aggregate.AggregateIdempotent | app.py:112-114 | aggregating an aggregated table changes nothing |
| Aggregate.InsertByName | app.py:117 | inserting a record adds exactly that record and its quantity |
| Aggregate.InsertByNameSorted | app.py:117 | inserting into a name-sorted list keeps it name-sorted |
| Aggregate.SortByName | app.py:116-117 | `sort_values('Nama Produk')` returns a permutation of the invalid records |
| Aggregate.SortByNameSorted | app.py:117 | the sorted records are in name order |
| Aggregate.SortByNameTotal | app.py:117 | sorting preserves the quantity total |
| Pipeline.PartitionSkuTotal | app.py:224-225 | for an accepted SKU, the valid records with its key sum to the total quantity of the raw lines carrying that SKU |
| Pipeline.PartitionConcat | app.py:143-158 | classifying two batches of lines is classifying their concatenation |
| Pipeline.ValidTable | app.py:162-166 | the valid table is strictly ascending by SKU and named from the catalog; each row is its SKU's total over the raw lines; every accepted SKU has a row, and every row's SKU is that of an accepted line |
| Pipeline.TableRowOrigin | app.py:109-114 | no row of the valid table lacks an accepted line with its SKU |
| Pipeline.Summarize | app.py:109-119 | a processor's two tables: the valid table as above, its rows exactly the accepted SKUs; the invalid records are a name-sorted permutation of the rejected lines; the total quantity of both tables is the total of the lines; no lines give two empty tables |
| Pipeline.SummarizeConcat | app.py:224-229 | the summary of two exports together is the re-aggregation of their valid tables plus the union of their invalid records |
| Pipeline.ShopeeLinesConcat | app.py:89-93 | cells are read independently: the lines of a column are the lines of its parts, in order |
| Pipeline.ShopeeLinesMembers | app.py:89-95 | a line is read from a column iff it is a product parsed from one of its text cells |
| Pipeline.ProcessShopee | app.py:83-123 | an unreadable workbook gives two empty tables; otherwise the summary of the parsed lines, in which every valid SKU is non-empty and known |
| Pipeline.ProcessTokopedia | app.py:129-174 | an unreadable workbook gives two empty tables; otherwise the summary of the cleaned rows, whose invalid records carry no variant |
| Pipeline.TikTokBody | app.py:183 | `iloc[2:]` drops the first two rows, and everything when there are no more |
| Pipeline.ProcessTikTok | app.py:180-235 | an unreadable workbook gives two empty tables, as does a sheet of at most two rows; otherwise the summary of the cleaned data rows; no valid row has a negative quantity, which holds because the model reads only digit cells (see Left out) |

## Left out

- The Streamlit user interface, PDF export, download links and `main` (app.py:237-390) are presentation. Only the processors' results are modelled.
- Reading workbooks is not modelled. `read_excel`, the header handling and `skiprows=4`, and the column selections `iloc[:, 7]` and `iloc[:, [1, 2, 4]]` are all left out. A processor receives the selected cells directly, and `None` stands for a workbook that cannot be read or lacks the columns. Each `process_file` turns either case into two empty tables.
- Loading the catalog from its URL (app.py:20-29) is left out. The catalog is a parameter, and an empty one stands for a failed load.
- Spreadsheet cell types are not modelled. Numbers, NaN and their `str()` renderings are outside the model:
  - a Tokopedia SKU cell is its text or missing;
  - a TikTok cell is its text;
  - a Tokopedia quantity is an integer.
- Cleaning.CoerceQuantity: `pd.to_numeric` followed by `int(float(...))` also accepts signs, decimals, exponents and surrounding whitespace, truncating toward zero. The model reads only plain digit strings and coerces everything else to 0.
- Pipeline.ProcessTikTok: a cell such as `"-3"` gives a negative quantity in the source, through `pd.to_numeric`. The model coerces it to 0, so its non-negative quantities are a consequence of that simplification, not a promise of app.py.
- Patterns.MatchCount: Python's `\d` also matches non-ASCII decimal digits, such as `٢`. The model accepts ASCII digits only.
- Markers.MarkerLen: for the same reason, the source also treats `[٢]` as a marker. The model does not.
- Markers.Split: the source splits `"[1]A[٢]B"` into `""`, `"A"`, `"B"`. The model splits it into `""`, `"A[٢]B"`.
- Shopee.ParseSegment: CPython 3.11 and later refuse by default to convert a string of more than 4300 digits with `int` and raise `ValueError`. The source's `except` branch (app.py:77-79) then skips the item. The model reads a quantity of any length.
- The error logging of the source (`st.error`) is a side effect and is not modelled.
- Aggregate.AggregateValid: rows sharing a SKU would be ordered by name in the model, whereas the source's unstable sort leaves their order open. Such rows never arise (see `Pipeline.Summarize`).
- Aggregate.SortByName: invalid records with equal names keep their input order in the model, whereas the source leaves their order open.
- Integer widths are not modelled. Quantities are unbounded integers, whereas pandas sums them in 64-bit integers.
