# Ozon stock and price reconciliation — a Dafny model

This project models the reconciliation core of the `seller.py` script, which
syncs a watch vendor's stock sheet with an Ozon seller account. The script
fetches the offer ids (articles) of the seller's catalog and downloads the
vendor's spreadsheet. It then turns the sheet's rows into two payloads:

- stock records `{"offer_id", "stock"}`, one per catalog id;
- price records `{"auto_action_enabled", "currency_code", "offer_id", "old_price", "price"}`,
  one per row whose code is in the catalog.

Both payloads are sent in batches of fixed size.

Modules, one per part of the core:

- `Records` (records.dfy): vendor rows, the two record kinds and the quantity error. Every spreadsheet cell is taken as its string.
- `IntParsing` (int_parsing.dfy): Python's `int()` on a quantity string. Failure is `None`, standing for ValueError.
- `PriceNormalizer` (price_normalizer.dfy): `price_conversion`.
- `Batches` (batches.dfy): the `divide` generator, as the whole sequence of slices it yields.
- `OfferIds` (offer_ids.dfy): the caller's Python list of offer ids. It is a class `OfferIdList` whose `items` field the `list.remove` model reassigns.
- `Stocks` (stocks.dfy): `create_stocks` as a method that changes the caller's `OfferIdList` in place. It is proved against the value-level function `MatchRows`, and the lemmas about that function state the properties. The `not_empty` filter is here too.
- `Prices` (prices.dfy): `create_prices` as a loop that only reads the list, proved against `PricesOf`.
- `Sync` (sync.dfy): the sequence `main` runs: stocks, stock batches of 100, prices, price batches of 900. It has two versions, as written and corrected (see Findings). The catalog and the rows are parameters. The batches that would be pushed are the result.

Three behaviours of the code are worth stating outright:

- `divide` with a negative batch size yields no slices. Only a zero batch size raises, because `range` refuses a zero step.
- Stock is whatever `int()` returns, so a quantity of `"-3"` gives stock -3.
- `create_prices` in `main` reads the list that `create_stocks` has already shrunk. That behaviour is modelled as written, and a corrected run is proved beside it (see Findings).

## Model

| member | source | states |
|---|---|---|
| `Stocks.StockFor` | seller.py:224-230 | The quantity policy. A stock is only ever read from `">10"` or from a quantity made of characters `int()` accepts. |
| `Stocks.MatchRows` | seller.py:221-232 | The first loop as a value. It emits at most one record per row. What it computes is pinned down by the `MatchRows…` and `Matched…` lemmas below. |
| `Stocks.StocksOf` | seller.py:221-235 | The value `create_stocks` returns. When matching finishes, there is one record per id of the list on entry, and every record after the matched ones has stock 0. |
| `Stocks.CreateStocks` | seller.py:207-235 | The returned records equal `StocksOf(rows, old list)`, or the quantity error that `int()` raises. The caller's list ends up as `MatchRows(...).remaining`: one occurrence is removed per matched row. On failure, it keeps the removals made before the failing row. |
| `Stocks.MatchRowsCounts` | seller.py:221-232 | The matched ids plus the remaining ids are exactly the supplied ids, as multisets. The remaining list never gains an id, even when the loop halts. |
| `Stocks.StocksCoverCatalog` | seller.py:221-235 | The result has exactly as many records as the list had ids on entry. Its multiset of `offer_id`s equals the multiset of supplied ids. |
| `Stocks.StocksDistinct` | seller.py:221-235 | A catalog without repeated ids gives stock records without repeated ids. |
| `Stocks.MatchRowsConcat` | seller.py:222-232 | Feed order: matching `a + b` is matching `a`, then matching `b` against what `a` left of the list. The records of `a` come first. |
| `Stocks.MatchedRecordsFromFeed` | seller.py:223-231 | Every matched record carries the code of some feed row. Its stock is that row's quantity mapped through the policy. |
| `Stocks.UnlistedIdGetsZero` | seller.py:233-234 | A catalog id that no row carries appears in the result with stock 0. |
| `Stocks.ZeroStocks` | seller.py:233-234 | One zero-stock record per left-over id, in the order the ids remain in the list. |
| `Stocks.RemainingAfterMatches` | seller.py:232 | The list left to the caller is the supplied list with `list.remove` applied once per matched record, in matching order. |
| `Stocks.DuplicateRowIgnored` | seller.py:222-232 | When the catalog holds an id once, a second row with the same code is skipped. Its quantity is never parsed. |
| `Stocks.MatchedIdConsumed` | seller.py:222-232 | An id that occurs at most once in the catalog, and that some row carries, is gone from the list after a successful run. |
| `Stocks.FailureNamesBadRow` | seller.py:223-230 | A failure names a feed row whose code is in the catalog and whose quantity the policy rejects. |
| `Stocks.MatchRowsSucceeds` | seller.py:222-232 | The converse: when every row whose code is in the list has a quantity the policy accepts, matching finishes without an error. |
| `Stocks.QuantityPolicy` | seller.py:224-230 | Measured against decimal notation: `">10"` gives 100, `"1"` gives 0, and the notation of every other integer gives that integer. A quantity (other than `">10"`) holding a character `int()` never accepts is an error. |
| `Stocks.QuantityExamples` | seller.py:224-230 | `"7"` gives 7, `"0"` gives 0, `"-3"` gives -3. `"abc"` and `"\x1c5"` are errors. |
| `Stocks.NotEmpty` | seller.py:344 | The filter keeps only records whose stock is not 0, and never more records than it is given. |
| `Stocks.NotEmptyCounts` | seller.py:344 | Every record whose stock is not 0 is kept as many times as it occurs. No record with stock 0 is kept. |
| `Stocks.NotEmptyConcat` | seller.py:344 | The filter keeps feed order: filtering `a + b` is filtering `a`, then `b`. |
| `IntParsing.ParseInt` | seller.py:230 | `int()` on the quantity. An empty or all-whitespace quantity is an error. |
| `IntParsing.ParseIntAlphabet` | seller.py:230 | A quantity containing a character other than whitespace, a digit, `_`, `+` or `-` is an error. |
| `IntParsing.ParseShowRoundTrip` | seller.py:230 | `int()` reads back the decimal notation of every integer. |
| `IntParsing.TrimLeftSuffix` | seller.py:230 | The leading whitespace `int()` ignores: what is kept is the longest suffix that does not start with a space, and everything dropped is whitespace. |
| `IntParsing.TrimRightPrefix` | seller.py:230 | The trailing whitespace: what is kept is the longest prefix that does not end with a space, and everything dropped is whitespace. |
| `Prices.PriceRecordFor` | seller.py:254-260 | The record built from one row carries the row's code, the fixed fields `"UNKNOWN"`, `"RUB"` and `old_price` `"0"`, and a digits-only price. |
| `Prices.CreatePrices` | seller.py:238-262 | Returns `PricesOf(rows, list)`. The list is not modified (the method has no `modifies`). |
| `Prices.PricesOf` | seller.py:251-262 | No more records than rows. Every record's `offer_id` is in the list. Every record has `"UNKNOWN"`, `"RUB"`, `old_price` `"0"` and a digits-only price. |
| `Prices.PricesOfConcat` | seller.py:252-261 | Feed order: the records for `a + b` are those for `a` followed by those for `b`. |
| `Prices.PricesOfRow` | seller.py:253-261 | A single row gives one record exactly when its code is in the list. |
| `Prices.DuplicateRowsDuplicatePrices` | seller.py:252-261 | Two equal rows give two equal price records. |
| `Prices.EveryListedRowPriced` | seller.py:253-261 | Every row whose code is in the list has its price record in the result. |
| `Prices.PricesFromFeed` | seller.py:254-260 | Every price record is the record built from some feed row: that row's code and `price_conversion` of its price. |
| `Prices.PricesOfMembershipOnly` | seller.py:253 | Only membership in the list matters, not the order or repetition of its ids. |
| `PriceNormalizer.BeforeFirstDot` | seller.py:283 | `split(".")[0]`: a prefix of the input with no `.`, which is the whole input or stops at the first `.`. |
| `PriceNormalizer.KeepDigits` | seller.py:283 | `re.sub("[^0-9]", "", …)`: only digits, never longer than the input, and the identity on all-digit text. |
| `PriceNormalizer.KeepDigitsConcat` | seller.py:283 | The digit filter distributes over concatenation, so digits keep their order. |
| `PriceNormalizer.PriceConversion` | seller.py:265-283 | The result is digits only and has no `.`. |
| `PriceNormalizer.BeforeFirstDotSplit` | seller.py:283 | Text after the first `.` never matters. |
| `PriceNormalizer.BeforeFirstDotAppend` | seller.py:283 | Text without a `.` is kept whole, whatever follows it. |
| `PriceNormalizer.SeparatorIgnored` | seller.py:283 | Inserting a character that is neither a digit nor `.` anywhere leaves the price unchanged. |
| `PriceNormalizer.PriceConversionIdempotent` | seller.py:283 | Normalising twice gives the same result as normalising once. |
| `PriceNormalizer.PriceConversionExample` | seller.py:278-281 | `"5'990.00"` gives `"5990"`. |
| `PriceNormalizer.PriceConversionThousandsComma` | seller.py:283 | `"1,234.56"` gives `"1234"`. |
| `PriceNormalizer.PriceConversionWholeNumber` | seller.py:283 | `"100"` gives `"100"`. |
| `Batches.Chunks` | seller.py:299-300 | For a positive size, the slices concatenate back to the list. Each slice is non-empty and at most `n` long, and all but the last are exactly `n` long. |
| `Batches.Divide` | seller.py:286-300 | A zero size is an error. A negative size yields nothing. A positive size yields slices that concatenate back to the list. |
| `Batches.ChunkAt` | seller.py:299-300 | Slice `i` is `lst[i*n : i*n+n]`, the slice the generator yields at index `i*n`. |
| `Batches.ChunkCount` | seller.py:299 | There is one slice for each index `i*n < len(lst)` of the generator's range. |
| `Batches.DivideEmpty` | seller.py:299 | An empty list yields no slices. |
| `Batches.DivideExamples` | seller.py:296-297 | `divide([1,2,3,4], 2)` is `[[1,2],[3,4]]`, and `[1,2,3,4,5]` gives `[[1,2],[3,4],[5]]`. |
| `OfferIds.RemoveFirst` | seller.py:232 | `list.remove` on a value: one element shorter when the id is present. When it is absent, the list is unchanged. |
| `OfferIds.RemoveFirstCount` | seller.py:232 | As multisets, exactly one occurrence of the id is gone and no other id changes in number. |
| `OfferIds.RemoveFirstAt` | seller.py:232 | The occurrence removed is the first one, and the order of the rest is kept. |
| `OfferIds.OfferIdList.Remove` | seller.py:232 | Reports whether the id was present. Replaces the list by `RemoveFirst` of the old list. |
| `Sync.SyncAsWritten` | seller.py:353-360 | `main` as written: aborts on a quantity error. Otherwise it pushes the stock records in slices of 100, and the price records of the list left by `create_stocks` in slices of 900. |
| `Sync.Sync` | seller.py:353-360 | The corrected `main`: it aborts on a quantity error, pushes stock batches of 100, and builds prices against the catalog as fetched (as `upload_prices` does at seller.py:318-319), pushed in batches of 900. |
| `Sync.AsWrittenDropsMatchedPrices` | seller.py:355-358 | As written, a row whose code occurs once in the catalog never gets a price record. |
| `Sync.SyncPricesEveryListedRow` | seller.py:318-319 | In the corrected run, the pushed price batches carry a record for every row whose code is in the catalog. |
| `Sync.AsWrittenCounterexample` | seller.py:355-358 | Catalog `["A"]` and one row `A, "5", "999.00"`: the stock is 5 and the list is left empty. As written, no price is built. Against the catalog, price `"999"` is built. |
| `Sync.ScenarioStocks` | seller.py:221-235 | Catalog `A, B, C` with rows `A ">10"` and `B "1"` gives stocks `A 100, B 0, C 0`. |
| `Sync.ScenarioPrices` | seller.py:251-262 | The same feed gives prices `A "999"` and `B "5000"`. |
| `Sync.ScenarioNotEmpty` | seller.py:344 | Of those stocks, only `A 100` passes the `not_empty` filter. |

## Left out

- `get_product_list`, `get_offer_ids`, `update_price` and `update_stocks` are HTTP calls to the Ozon API. They are left out. The catalog is a parameter, and the batches to push are the result.
- The termination of the `get_offer_ids` pagination loop depends on the server's replies and is not modelled.
- `download_stock` (download, zip extraction, spreadsheet parsing, file deletion) is left out. The rows are a parameter.
- `upload_prices` and `upload_stocks` only sequence the core functions with network calls. `upload_stocks`'s `not_empty` filter is `Stocks.NotEmpty`. The fresh catalog `upload_prices` fetches is what `Sync.Sync` uses.
- `main`'s environment loading and its printing of caught exceptions are left out. A quantity error ends the run as `Aborted`. Network errors are not modelled.
- Cells that are not strings (the numbers pandas may return) are not modelled. Every cell is its string form.
- `IntParsing.ParseInt`: does not model the non-ASCII whitespace and non-ASCII decimal digits that Python's `int()` also accepts. Python turns those characters into ASCII spaces and digits before parsing. Characters below 0x7F pass through that conversion unchanged, so 0x1C-0x1F raise there too. The model covers ASCII text: space, tab, line feed, vertical tab, form feed and carriage return around the literal, one sign, and digits with single underscores between them.
- `IntParsing.ParseInt`: does not model the ValueError CPython 3.11 and later raise for a literal longer than 4300 digits. The model accepts literals of any length.
- `Batches.Divide`: Python's generator raises the zero-step error only when iteration starts, and yields lazily. The model gives the whole result at once. Nothing between the call and the iteration observes the difference.
- `OfferIds.OfferIdList.Remove`: the ValueError for an absent id is `found == false` with the list unchanged. `create_stocks` only removes ids it has just found, so this path is never taken.

## Findings

| source | as written | input that shows it | evidently intended | confidence | as-written member | corrected member |
|---|---|---|---|---|---|---|
| seller.py:355-358 | `main` passes to `create_prices` the list that `create_stocks` has just emptied of every matched id, so every row whose id occurs once in the catalog gets no price | catalog `["A"]`, rows `[("A", "5", "999.00")]`: stock `A 5`, prices `[]` | prices against the catalog as fetched, as `upload_prices` does: `[A "999"]` | high, not executed | `Sync.SyncAsWritten`, `Sync.AsWrittenDropsMatchedPrices`, `Sync.AsWrittenCounterexample` | `Sync.Sync`, `Sync.SyncPricesEveryListedRow` |
