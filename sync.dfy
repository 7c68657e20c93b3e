/**
 * The run of `main`: build the stock records, push them in batches of 100,
 * build the price records, push them in batches of 900. The catalog of
 * offer ids and the vendor rows are inputs (their fetching is not part of
 * this model) and the batches that would be pushed are the outputs.
 */
module Sync {
  import opened Wrappers
  import opened Records
  import opened OfferIds
  import opened Batches
  import opened Stocks
  import opened Prices
  import opened PriceNormalizer

  const StockBatchSize := 100
  const PriceBatchSize := 900

  /** The batches a run pushes, or the error that aborts it before any push. */
  datatype Run =
    | Pushed(stockBatches: seq<seq<StockRecord>>, priceBatches: seq<seq<PriceRecord>>)
    | Aborted(error: QuantityError)

  /**
   * `main` as written: `create_prices` receives the same list object that
   * `create_stocks` has just shrunk, so it only sees the ids that no row
   * matched.
   */
  method SyncAsWritten(catalog: seq<OfferId>, rows: seq<VendorRow>) returns (run: Run)
    ensures run == match StocksOf(rows, catalog)
      case Err(e) => Aborted(e)
      case Ok(stocks) =>
        Pushed(Chunks(stocks, StockBatchSize), Chunks(PricesOf(rows, MatchRows(rows, catalog).remaining), PriceBatchSize))
  {
    var offerIds := new OfferIdList(catalog);
    var stocks := CreateStocks(rows, offerIds);
    if stocks.Err? {
      return Aborted(stocks.error);
    }
    var stockBatches := Divide(stocks.value, StockBatchSize);
    var prices := CreatePrices(rows, offerIds);
    var priceBatches := Divide(prices, PriceBatchSize);
    run := Pushed(stockBatches.value, priceBatches.value);
  }

  /**
   * The run with prices built against the catalog as fetched, as
   * `upload_prices` does with a freshly fetched list: every row whose code
   * is in the catalog is priced.
   */
  method Sync(catalog: seq<OfferId>, rows: seq<VendorRow>) returns (run: Run)
    ensures run == match StocksOf(rows, catalog)
      case Err(e) => Aborted(e)
      case Ok(stocks) => Pushed(Chunks(stocks, StockBatchSize), Chunks(PricesOf(rows, catalog), PriceBatchSize))
  {
    var offerIds := new OfferIdList(catalog);
    var stocks := CreateStocks(rows, offerIds);
    if stocks.Err? {
      return Aborted(stocks.error);
    }
    var stockBatches := Divide(stocks.value, StockBatchSize);
    var catalogIds := new OfferIdList(catalog);
    var prices := CreatePrices(rows, catalogIds);
    var priceBatches := Divide(prices, PriceBatchSize);
    run := Pushed(stockBatches.value, priceBatches.value);
  }

  /**
   * As written, a row whose code occurs once in the catalog never gets a
   * price record: `create_stocks` has removed that code from the list
   * `create_prices` then reads.
   */
  lemma AsWrittenDropsMatchedPrices(rows: seq<VendorRow>, catalog: seq<OfferId>, j: nat)
    requires j < |rows| && multiset(catalog)[rows[j].code] <= 1
    requires MatchRows(rows, catalog).Done?
    ensures forall p :: p in PricesOf(rows, MatchRows(rows, catalog).remaining) ==> p.offerId != rows[j].code
  {
    MatchedIdConsumed(rows, catalog, j);
  }

  /**
   * With the catalog as fetched, the price batches `Sync` pushes carry a
   * record for every row of the feed whose code is in the catalog.
   */
  lemma SyncPricesEveryListedRow(rows: seq<VendorRow>, catalog: seq<OfferId>, j: nat)
    requires j < |rows| && rows[j].code in catalog
    ensures PriceRecordFor(rows[j]) in Flatten(Chunks(PricesOf(rows, catalog), PriceBatchSize))
  {
    EveryListedRowPriced(rows, catalog, j);
  }

  /** The smallest input that shows the difference: one catalog id, one row for it. */
  lemma AsWrittenCounterexample()
    ensures MatchRows([VendorRow("A", "5", "999.00")], ["A"]) == Done([StockRecord("A", 5)], [])
    ensures PricesOf([VendorRow("A", "5", "999.00")], []) == []
    ensures PricesOf([VendorRow("A", "5", "999.00")], ["A"]) == [PriceRecord("UNKNOWN", "RUB", "A", "0", "999")]
  {
    var row := VendorRow("A", "5", "999.00");
    CounterexampleMatching(row);
    PricesOfRow(row, []);
    PricesOfRow(row, ["A"]);
    PriceNinetyNine();
  }

  lemma CounterexampleMatching(row: VendorRow)
    requires row == VendorRow("A", "5", "999.00")
    ensures MatchRows([row], ["A"]) == Done([StockRecord("A", 5)], [])
  {
    assert IntParsing.ShowInt(5) == "5" by {
      assert IntParsing.DigitChar(5) == '5';
    }
    Stocks.QuantityPolicy(5, "");
    assert [row][0] == row && [row][1..] == [];
    assert RemoveFirst(["A"], "A") == [];
    assert MatchRows([row], ["A"]) == After([StockRecord("A", 5)], MatchRows([], []));
  }

  lemma PriceNinetyNine()
    ensures PriceConversion("999.00") == "999"
  {
    assert "999" + "." + "00" == "999.00";
    assert '.' !in "999";
    BeforeFirstDotSplit("999", "00");
  }

  /**
   * A catalog of three ids and a feed with rows for two of them: the
   * sentinel ">10" gives 100, the sentinel "1" gives 0, and the unlisted id
   * gets 0.
   */
  lemma ScenarioStocks()
    ensures StocksOf([VendorRow("A", ">10", "999.00"), VendorRow("B", "1", "5'000.00")], ["A", "B", "C"])
      == Ok([StockRecord("A", 100), StockRecord("B", 0), StockRecord("C", 0)])
  {
    var a := VendorRow("A", ">10", "999.00");
    var b := VendorRow("B", "1", "5'000.00");
    ScenarioMatching(a, b);
    assert ZeroStocks(["C"]) == [StockRecord("C", 0)];
    assert [StockRecord("A", 100), StockRecord("B", 0)] + [StockRecord("C", 0)]
      == [StockRecord("A", 100), StockRecord("B", 0), StockRecord("C", 0)];
  }

  /** Of those stock records only the first gets past the `not_empty` filter. */
  lemma ScenarioNotEmpty()
    ensures NotEmpty([StockRecord("A", 100), StockRecord("B", 0), StockRecord("C", 0)]) == [StockRecord("A", 100)]
  {
    var s := [StockRecord("A", 100), StockRecord("B", 0), StockRecord("C", 0)];
    assert s[1..] == [StockRecord("B", 0), StockRecord("C", 0)];
    assert s[1..][1..] == [StockRecord("C", 0)];
    assert s[1..][1..][1..] == [];
  }

  lemma ScenarioMatching(a: VendorRow, b: VendorRow)
    requires a == VendorRow("A", ">10", "999.00") && b == VendorRow("B", "1", "5'000.00")
    ensures MatchRows([a, b], ["A", "B", "C"]) == Done([StockRecord("A", 100), StockRecord("B", 0)], ["C"])
  {
    assert [a, b][0] == a && [a, b][1..] == [b] && [b][1..] == [];
    assert RemoveFirst(["A", "B", "C"], "A") == ["B", "C"];
    assert RemoveFirst(["B", "C"], "B") == ["C"];
    assert MatchRows([b], ["B", "C"]) == After([StockRecord("B", 0)], MatchRows([], ["C"]));
    assert MatchRows([a, b], ["A", "B", "C"]) == After([StockRecord("A", 100)], MatchRows([b], ["B", "C"]));
  }

  /** The same scenario's prices: one per row, with the normalised price. */
  lemma ScenarioPrices()
    ensures PricesOf([VendorRow("A", ">10", "999.00"), VendorRow("B", "1", "5'000.00")], ["A", "B", "C"])
      == [PriceRecord("UNKNOWN", "RUB", "A", "0", "999"), PriceRecord("UNKNOWN", "RUB", "B", "0", "5000")]
  {
    var a := VendorRow("A", ">10", "999.00");
    var b := VendorRow("B", "1", "5'000.00");
    assert [a] + [b] == [a, b];
    PricesOfConcat([a], [b], ["A", "B", "C"]);
    PricesOfRow(a, ["A", "B", "C"]);
    PricesOfRow(b, ["A", "B", "C"]);
    PriceNinetyNine();
    PriceFiveThousand();
  }

  lemma PriceFiveThousand()
    ensures PriceConversion("5'000.00") == "5000"
  {
    assert "5'000" + "." + "00" == "5'000.00";
    assert '.' !in "5'000";
    BeforeFirstDotSplit("5'000", "00");
  }
}
