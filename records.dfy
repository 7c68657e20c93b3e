/**
 * The entities the reconciliation works on: a row of the vendor's stock
 * sheet and the two kinds of payload records sent to the marketplace.
 */
module Records {
  /** A marketplace article (the `offer_id` of a product); compared by exact string equality. */
  type OfferId = string

  /**
   * One data row of the vendor spreadsheet, reduced to the three columns
   * the reconciliation reads: "Код" (code), "Количество" (quantity) and
   * "Цена" (price). Every cell is taken as its string form.
   */
  datatype VendorRow = VendorRow(code: string, quantity: string, price: string)

  /** A stock-update item `{"offer_id": …, "stock": …}`. */
  datatype StockRecord = StockRecord(offerId: OfferId, stock: int)

  /** A price-update item with its five keys. */
  datatype PriceRecord = PriceRecord(
    autoActionEnabled: string,
    currencyCode: string,
    offerId: OfferId,
    oldPrice: string,
    price: string)

  /** The ValueError `int()` raises on a quantity cell that is not an integer literal. */
  datatype QuantityError = QuantityError(code: string, quantity: string)

  /** The `offer_id` column of a list of stock records. */
  function OfferIdsOf(stocks: seq<StockRecord>): (ids: seq<OfferId>)
    ensures |ids| == |stocks|
    ensures forall k :: 0 <= k < |stocks| ==> ids[k] == stocks[k].offerId
  {
    if stocks == [] then [] else [stocks[0].offerId] + OfferIdsOf(stocks[1..])
  }

  lemma {:induction false} OfferIdsOfConcat(a: seq<StockRecord>, b: seq<StockRecord>)
    ensures OfferIdsOf(a + b) == OfferIdsOf(a) + OfferIdsOf(b)
  {
    if a != [] {
      assert (a + b)[1..] == a[1..] + b;
      OfferIdsOfConcat(a[1..], b);
    }
  }

  /** No offer id occurs twice. */
  predicate Distinct(ids: seq<OfferId>) {
    forall i, j :: 0 <= i < j < |ids| ==> ids[i] != ids[j]
  }
}
