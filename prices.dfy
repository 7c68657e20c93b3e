/**
 * `create_prices`: one price record per vendor row whose code is in the
 * list of offer ids, in feed order. The list is only read.
 */
module Prices {
  import opened Records
  import opened IntParsing
  import opened PriceNormalizer
  import opened OfferIds

  /** The price payload item built from one row: for the row's code, with the fixed fields and a digits-only price. */
  function PriceRecordFor(row: VendorRow): (p: PriceRecord)
    ensures p.offerId == row.code && WellFormedPrice(p)
  {
    PriceRecord("UNKNOWN", "RUB", row.code, "0", PriceConversion(row.price))
  }

  /** The fixed fields every price item carries, and a digits-only price. */
  predicate WellFormedPrice(p: PriceRecord) {
    p.autoActionEnabled == "UNKNOWN" && p.currencyCode == "RUB" && p.oldPrice == "0" && AllDigits(p.price)
  }

  /**
   * What `create_prices` returns: never more records than rows, and every
   * record well formed and for an id of the list.
   */
  function PricesOf(rows: seq<VendorRow>, ids: seq<OfferId>): (r: seq<PriceRecord>)
    ensures |r| <= |rows|
    ensures forall k :: 0 <= k < |r| ==> r[k].offerId in ids && WellFormedPrice(r[k])
    decreases |rows|
  {
    if rows == [] then []
    else
      var last := rows[|rows| - 1];
      PricesOf(rows[..|rows| - 1], ids) + (if last.code in ids then [PriceRecordFor(last)] else [])
  }

  method CreatePrices(rows: seq<VendorRow>, offerIds: OfferIdList) returns (prices: seq<PriceRecord>)
    ensures prices == PricesOf(rows, offerIds.items)
  {
    prices := [];
    var i := 0;
    while i < |rows|
      invariant 0 <= i <= |rows|
      invariant prices == PricesOf(rows[..i], offerIds.items)
    {
      var row := rows[i];
      assert rows[..i + 1][..i] == rows[..i];
      if row.code in offerIds.items {
        prices := prices + [PriceRecordFor(row)];
      }
      i := i + 1;
    }
    assert rows[..i] == rows;
  }

  /** Feed order: the records for `a + b` are those for `a` followed by those for `b`. */
  lemma {:induction false} PricesOfConcat(a: seq<VendorRow>, b: seq<VendorRow>, ids: seq<OfferId>)
    ensures PricesOf(a + b, ids) == PricesOf(a, ids) + PricesOf(b, ids)
    decreases |b|
  {
    if b == [] {
      assert a + b == a;
    } else {
      var ab := a + b;
      assert ab[..|ab| - 1] == a + b[..|b| - 1];
      assert ab[|ab| - 1] == b[|b| - 1];
      PricesOfConcat(a, b[..|b| - 1], ids);
    }
  }

  /** One row gives one record exactly when its code is in the list. */
  lemma PricesOfRow(row: VendorRow, ids: seq<OfferId>)
    ensures PricesOf([row], ids) == if row.code in ids then [PriceRecordFor(row)] else []
  {
    assert [row][..0] == [];
  }

  /** Unlike stock, a repeated row gives a repeated price record. */
  lemma DuplicateRowsDuplicatePrices(row: VendorRow, ids: seq<OfferId>)
    requires row.code in ids
    ensures PricesOf([row, row], ids) == [PriceRecordFor(row), PriceRecordFor(row)]
  {
    PricesOfConcat([row], [row], ids);
    PricesOfRow(row, ids);
    assert [row] + [row] == [row, row];
  }

  /** Every row whose code is in the list is priced. */
  lemma EveryListedRowPriced(rows: seq<VendorRow>, ids: seq<OfferId>, j: nat)
    requires j < |rows| && rows[j].code in ids
    ensures PriceRecordFor(rows[j]) in PricesOf(rows, ids)
  {
    assert rows == rows[..j] + [rows[j]] + rows[j + 1..];
    PricesOfConcat(rows[..j] + [rows[j]], rows[j + 1..], ids);
    PricesOfConcat(rows[..j], [rows[j]], ids);
    PricesOfRow(rows[j], ids);
  }

  /** `p` was built from some row of the feed. */
  ghost predicate FromFeed(p: PriceRecord, rows: seq<VendorRow>) {
    exists j :: 0 <= j < |rows| && p == PriceRecordFor(rows[j])
  }

  /** Every price record carries the code of a row and that row's normalised price. */
  lemma {:induction false} PricesFromFeed(rows: seq<VendorRow>, ids: seq<OfferId>)
    ensures forall k :: 0 <= k < |PricesOf(rows, ids)| ==> FromFeed(PricesOf(rows, ids)[k], rows)
    decreases |rows|
  {
    if rows != [] {
      var init := rows[..|rows| - 1];
      PricesFromFeed(init, ids);
      var r := PricesOf(rows, ids);
      forall k | 0 <= k < |r| ensures FromFeed(r[k], rows) {
        if k < |PricesOf(init, ids)| {
          var j :| 0 <= j < |init| && PricesOf(init, ids)[k] == PriceRecordFor(init[j]);
          assert init[j] == rows[j];
        } else {
          assert r[k] == PriceRecordFor(rows[|rows| - 1]);
        }
      }
    }
  }

  /** Only membership in the list matters, not order or multiplicity. */
  lemma {:induction false} PricesOfMembershipOnly(rows: seq<VendorRow>, ids: seq<OfferId>, ids': seq<OfferId>)
    requires forall x :: x in ids <==> x in ids'
    ensures PricesOf(rows, ids) == PricesOf(rows, ids')
    decreases |rows|
  {
    if rows != [] {
      PricesOfMembershipOnly(rows[..|rows| - 1], ids, ids');
    }
  }
}
