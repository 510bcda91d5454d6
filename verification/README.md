# seller-apis sync core in Dafny

This project models the logic that keeps the watch shop's marketplace listings in
step with its warehouse spreadsheet. It covers both integrations, Ozon
(`seller.py`) and Yandex Market (`market.py`). It proves properties of that
logic.

- **Reconciliation.** `create_stocks` walks the inventory rows (code, quantity
  text, price text). Every row whose code is still in the catalogue's
  `offer_ids` list yields a stock record with the bucketed quantity, and its
  code is removed from the caller's list with `list.remove`. Every identifier
  left over is then reported with stock 0. `create_prices` emits one price
  record per row whose code is listed.
- **Quantity rule.** `">10"` becomes 100, `"1"` becomes 0, and anything else goes
  to `int()`, which raises on text that is not a decimal number.
- **Price normalisation.** `price_conversion` keeps the ASCII digits of the text
  before the first `.`.
- **Chunking.** `divide` cuts a list into consecutive slices of at most `n`.
- **Listing loops.** Ozon's `get_offer_ids` sends the previous page's `last_id`
  and stops once the item count equals `total`. Market's sends the previous
  `nextPageToken` and stops at a page whose token is absent or empty.
- **Ozon `main`.** It lists the catalogue, uploads the stock records in batches
  of 100, then builds price records from the same `offer_ids` object and
  uploads them in batches of 900.
- **Market `upload_stocks`.** Uploads batches of 2000 and keeps the records whose
  first item's count is not 0.

Files:

- `inventory.dfy` (module `Inventory`) holds:
  - the rows, errors and results;
  - `int()` on decimal text and the quantity rule;
  - the list operations: `in`, `list.remove`, filtering and subsequences;
  - the class `IdList`, which stands for the Python list that
    `create_stocks` changes in place.
- `reconciler.dfy` (module `Reconciler`) holds the consumption pass shared by
  both `create_stocks` functions, a set-based reference reading of it, and the
  rows `create_prices` selects.
- `seller.py` is modelled by `seller.dfy` (module `Seller`). `market.py` is
  modelled by `market.dfy` (module `Market`).

The loops of `create_stocks`, `create_prices` and `get_offer_ids` are
methods. Each is proved equal to a specification function, and the
properties are proved about those functions. `create_stocks` takes an
`IdList` and `modifies` it, so consuming the caller's list is visible in the
model.

Page responses are an abstract sequence of values. Running out of them before
the loop stops gives the error `PagesExhausted`. The records a run would
upload are returned as batches instead of being sent. The clock reading in
Market's `create_stocks` is a parameter.

## Model

| member | source | states |
|---|---|---|
| Inventory.ParseInt | seller.py:213 | `int()` succeeds exactly on non-empty ASCII decimal text. Otherwise it fails with a ValueError naming the text. |
| Inventory.ParseIntRoundTrip | seller.py:213 | `int(str(n)) == n` for every natural number `n`. |
| Inventory.LeadingZeroIgnored | seller.py:213 | A leading `0` does not change the value `int()` gives. |
| Inventory.Quantity | seller.py:207-213 | `">10"` gives 100 and `"1"` gives 0. Any other text gives its decimal value when it is decimal, and otherwise fails with a ValueError naming that text. |
| Inventory.QuantityExamples | market.py:144-150 | Concrete values: `">10"`→100, `"1"`→0, `"7"`→7, `"0"`→0, `"2"`→2, `"01"`→1. `">5"` and `""` are errors. |
| Inventory.RemoveFirst | seller.py:215 | `list.remove(x)`: one element fewer, and the multiset loses exactly one `x`. |
| Inventory.RemoveFirstIsSubsequence | seller.py:215 | `list.remove` keeps every other element in its original order. |
| Inventory.RemoveFirstDistinct | seller.py:215 | On a list without repeats, `list.remove(x)` leaves a list without repeats whose members are the old ones except `x`. |
| Inventory.IdList.Remove | seller.py:215 | The list object afterwards holds the old contents with the first `x` removed. |
| Inventory.FilterIsSubsequence | market.py:250-252 | `filter` deletes elements and never reorders them. |
| Inventory.FilterComplete | market.py:250-252 | Every element the predicate accepts survives `filter`. |
| Reconciler.Match | seller.py:205-215 | The first loop of `create_stocks`. The list left behind is never longer than the catalogue list, and on success every matched row has moved exactly one identifier out of it. |
| Reconciler.Reconcile | seller.py:204-218 | `create_stocks` as a whole: on success there is exactly one record per catalogue list entry. |
| Reconciler.Claimed | seller.py:205-215 | The set-based reference reading of the first loop: a row claims its code while the code is still available. It claims no more rows than there are, and only available codes. |
| Reconciler.Priced | seller.py:244-245 | The rows `create_prices` selects with `in offer_ids`: input rows whose code is listed, no more than there are rows. |
| Reconciler.ZeroLevels | seller.py:216-217 | The second loop reports every remaining identifier, in list order, with count 0. |
| Reconciler.MatchConserves | seller.py:204-215 | In a pass that does not fail, the codes of the matched rows plus the identifiers left equal the original list as a multiset. Each match moves one occurrence. |
| Reconciler.MatchLeftIsSubsequence | seller.py:206-215 | The list left behind is the original with elements deleted and the rest in order, even when an error aborts the pass. |
| Reconciler.MatchAsSetDifference | seller.py:204-215 | With distinct identifiers, the consumption pass equals the set-based reading. The records are the rows that claim a still-available code, in row order, with their bucketed quantities. The identifiers left are exactly those no row claimed. |
| Reconciler.ClaimedCoversRows | seller.py:206 | Every row whose code is listed at the start is claimed, by itself or by an earlier row with the same code. |
| Reconciler.ClaimedDistinct | seller.py:206-215 | No code is claimed twice: once a row has claimed a code, a later row with the same code is skipped. |
| Reconciler.MatchFailure | seller.py:206-213 | A pass fails only at a row whose code is listed and whose quantity `int()` rejects. The error names that quantity. |
| Reconciler.MatchSucceeds | seller.py:206-213 | A pass does not fail when every listed row has an acceptable quantity. |
| Reconciler.ReconcileCovers | seller.py:204-217 | The records of `create_stocks` hold every catalogue identifier exactly as often as the catalogue lists it, and no other code. |
| Reconciler.ReconcileOnce | seller.py:204-217 | With distinct identifiers, each identifier gets exactly one record, and only catalogue identifiers get one. |
| Reconciler.ReconcileExample | seller.py:204-217 | Rows a1 (`">10"`) and a2 (`"1"`) against catalogue a1, a2, a3 give a1→100, a2→0, a3→0, leaving a3 in the list. |
| Reconciler.NothingPricedAfterConsumption | seller.py:358-361 | With distinct identifiers, no inventory row's code is in the list a successful `create_stocks` leaves behind. |
| Seller.Split | seller.py:266 | `str.split(".")` gives at least one piece, no piece contains `.`, and joining the pieces with `.` gives the text back. |
| Seller.KeepDigits | seller.py:266 | `re.sub("[^0-9]", "", …)`: the result holds ASCII digits only. |
| Seller.PriceConversion | seller.py:257-266 | The normalised price consists of ASCII digits only. |
| Seller.PriceConversionBeforeFirstDot | seller.py:266 | For any price written as `head + tail`, where `head` has no `.` and `tail` is empty or starts with `.`, the result is exactly the digits of `head`, in order. |
| Seller.KeepDigitsAppend | seller.py:266 | Removing non-digits distributes over concatenation. |
| Seller.KeepDigitsOfDigits | seller.py:266 | Text made only of digits passes through the digit filter unchanged. |
| Seller.PriceConversionIdempotent | seller.py:266 | Normalising a normalised price changes nothing. |
| Seller.PriceConversionPlain | seller.py:257-266 | `"100.00"` gives `"100"`. |
| Seller.PriceConversionOfDigits | seller.py:257-266 | Digits followed by a `.` part (`"500.00 р."`) normalise to exactly those digits (`"500"`). |
| Seller.PriceConversionThousands | seller.py:258 | A digit, a thousands mark, more digits, then a `.` part (`"5'990.00 руб."`, `"1,234.50 $"`) gives the digits without the mark: `"5990"`, `"1234"`. |
| Seller.Divide | seller.py:269-280 | Every chunk but the last has exactly `n` elements, and the last has 1 to `n`. There are no chunks exactly when the list is empty. |
| Seller.DivideFlatten | seller.py:279-280 | The chunks put back together in order give the list. |
| Seller.DivideBounds | seller.py:279 | The chunks hold the list, and one chunk fewer would not. |
| Seller.DivideCount | seller.py:279 | There are ceil(len/n) chunks. |
| Seller.DivideSlices | seller.py:279-280 | Chunk `i` is the slice `lst[i*n : i*n+n]`, clamped to the list's length. |
| Seller.StocksFor | seller.py:204-218 | The records `create_stocks` returns: on success exactly one per catalogue list entry. |
| Seller.StocksForCovers | seller.py:204-218 | The offer_ids of the stock records are the catalogue list as a multiset. |
| Seller.CreateStocks | seller.py:184-218 | Returns the matched records in inventory order, then the leftovers with stock 0, or the ValueError. The caller's list ends up as the original minus one occurrence per matched row. |
| Seller.PriceOf | seller.py:246-252 | The price record of a row carries the row's code as `offer_id` and a digits-only price. |
| Seller.OzonPrices | seller.py:243-254 | One record per row whose code is listed, in row order. Each has `offer_id` = code, `"RUB"`, old price `"0"`, `"UNKNOWN"` and the normalised price. |
| Seller.CreatePrices | seller.py:221-254 | Returns exactly those records and does not modify the list. |
| Seller.OzonListing | seller.py:69-81 | The listing over the responses: on success at least one and at most all responses were requested, the first with cursor `""`. Otherwise the error is `PagesExhausted`. |
| Seller.FirstStop | seller.py:71-77 | Finds the first page at which the running item count equals that page's `total`. No earlier page satisfies this. |
| Seller.OzonListingSpec | seller.py:69-81 | At least one request is made. The first cursor is `""`, and each later one is the previous page's `last_id`. The loop stops at the first page whose `total` equals the count so far, and exactly `total` identifiers are returned. |
| Seller.OzonListingFails | seller.py:71-77 | The listing does not finish exactly when no page meets the stop condition. |
| Seller.GetOfferIds | seller.py:57-81 | The loop with `last_id` and `break`, then the `offer_id` collection loop, computes exactly the listing above. |
| Seller.OzonSync | seller.py:356-363 | `main` as written: every stock batch holds 1 to 100 records and every price batch 1 to 900. |
| Seller.SyncOzon | seller.py:356-363 | `main` as written: stock batches of 100 from `create_stocks`, then price batches of 900 from `create_prices` on the same, consumed list object. |
| Seller.SyncOzonUploadsNoPrices | seller.py:358-361 | When the catalogue lists each offer once, `main` as written uploads no price at all. |
| Seller.OzonSyncWithCopy | seller.py:356-363 | `main` with a copy for `create_stocks`: the same batch bounds, 100 and 900. |
| Seller.SyncOzonWithCopy | seller.py:356-363 | `main` with `create_stocks` given a copy of the list. |
| Seller.SyncOzonWithCopyUploadsEveryPrice | seller.py:358-361 | With the copy, the price of every inventory row whose code is in the catalogue is uploaded. |
| Seller.OzonPricesExample | seller.py:243-254 | Rows a1 (`"500.00 р."`) and a2 (`"100.00 р."`) against the full catalogue a1, a2, a3 give two records, in row order, priced `"500"` and `"100"`. |
| Market.Token | market.py:116 | The value `page` takes: the `nextPageToken` when present, and `""` when absent. |
| Market.LastPage | market.py:119 | `if not page`: the token is absent or empty. |
| Market.MarketListing | market.py:113-124 | The listing over the responses: on success at least one and at most all responses were requested, the first with token `""`. Otherwise the error is `PagesExhausted`. |
| Market.FirstLast | market.py:115-120 | Finds the first page whose `nextPageToken` is absent or empty. Every earlier page has a token. |
| Market.MarketListingSpec | market.py:113-124 | At least one request is made. The first token is `""`, and each later one is the previous page's non-empty token. The loop stops at the first page without a token, and the result is every entry's `shopSku` in page order. |
| Market.MarketListingFails | market.py:115-120 | The listing does not finish exactly when every page carries a token. |
| Market.MarketListingThreePages | market.py:113-124 | Pages of 200, 200 and 50 entries, the last without a token, give 450 identifiers from 3 requests. |
| Market.GetOfferIds | market.py:103-124 | The `while True` loop with `break`, then the `shopSku` collection loop, computes exactly the listing above. |
| Market.MarketStocksShape | market.py:141-179 | Every record has the given `warehouseId` and exactly one item, of type `"FIT"`, stamped with the same `updatedAt`. The skus are the catalogue list as a multiset, and are distinct when the list is. |
| Market.MarketStocksFor | market.py:141-180 | The records `create_stocks` returns: on success exactly one per catalogue list entry. |
| Market.CreateStocks | market.py:127-180 | The same reconciliation as Ozon, with warehouse and time stamp. The caller's list ends up as the original minus one occurrence per matched row. |
| Market.PriceValue | market.py:200 | `int(price_conversion(price))` fails exactly when the normalised price is empty, with a ValueError on `""`. |
| Market.MarketPrices | market.py:193-209 | Succeeds exactly when every listed row's normalised price is non-empty. Otherwise the ValueError is on `""`. |
| Market.MarketPricesRecords | market.py:194-208 | On success there is one record per listed row, in row order, with `id` = code, `"RUR"`, and `value` = the integer of the normalised price. |
| Market.CreatePrices | market.py:183-209 | The loop returns exactly `MarketPrices` and does not modify the list. |
| Market.InStock | market.py:251 | The `filter` lambda: a record passes only when it has a first item and that item's count is not 0. |
| Market.NotEmpty | market.py:250-252 | Every record kept has a first item whose count is not 0, and is one of the input records. |
| Market.NotEmptyKeepsEveryStocked | market.py:250-252 | Every record whose first count is not 0 is kept, and the result is a subsequence of the input. |
| Market.UploadStocks | market.py:246-253 | `upload_stocks`: it never reports more in-stock records than records. A failure is `PagesExhausted` or the ValueError of `int()`. |
| Market.UploadStocksSpec | market.py:246-253 | The batches of 2000 put back together give the records. Each batch holds 1 to 2000 records. The in-stock records are an ordered subsequence of the records, all with a non-zero count and the given warehouse. |

## Left out

- The HTTP calls are not part of this model: `get_product_list`, `update_stocks` and `update_price` in both files. Page responses are inputs, and uploads are the returned batches.
- `download_stock` (zip download, Excel parsing, file removal) is not part of this model. The inventory is a given sequence of rows of text.
- Neither `main` reads the environment, and neither classifies or prints errors. Every exception of the modelled code becomes an `Err` result.
- Market's `main` is not modelled. Its `upload_prices` coroutine is never awaited, so it never runs. Its `try` covers both channels, so a failure in the FBS channel also skips the DBS channel, although the docstring of `main` (market.py:256-259) says FBS and DBS are updated separately.
- The `async` wrappers in `seller.py` are not modelled. This includes the `not_empty` filter of Ozon's `upload_stocks` at seller.py:344.
- Market `upload_prices`: only its parts are modelled (`get_offer_ids`, `create_prices`, `divide` by 500).
- `datetime.utcnow()` at market.py:141 is the `date` parameter.
- Python `int()` accepts whitespace, signs and underscores, and pandas turns cell values into text. Quantities and prices are modelled as text, and only plain ASCII decimal text is accepted.
- Seller.GetOfferIds and Market.GetOfferIds: if no response meets the stop condition, the source keeps requesting pages. The model stops with `PagesExhausted` when the given responses run out.
- Seller.Divide: requires `n > 0`. `range` with step 0 raises, and a negative step yields nothing. Every call site passes a positive constant.
- Market.NotEmpty: requires every record to hold an item. The source reads `items[0]` and would raise on an empty list, and `create_stocks` always builds one item.
- Catalogue entries or rows with missing keys (`dict.get` returning `None`, `str(None)`) are not modelled. Codes are plain text.
- The listings return the identifier list with repeats when the platform sends repeats. It is not a set.

## Findings

| source | as written | input that shows it | evidently intended | confidence | as-written member | corrected member |
|---|---|---|---|---|---|---|
| seller.py:358-361 | `main` passes to `create_prices` the `offer_ids` list that `create_stocks` has already stripped of every matched identifier. | Catalogue `["A"]` and inventory row `("A", "5", "100.00")`: `create_stocks` removes `"A"`, so `create_prices` sees `[]` and no price is uploaded. With any catalogue without repeats, no price is ever uploaded. | `create_prices` sees the full catalogue, for example by giving `create_stocks` a copy of the list. | not executed | Seller.SyncOzonUploadsNoPrices | Seller.SyncOzonWithCopyUploadsEveryPrice |
