/**
 * `create_stocks`: one stock record per offer id of the catalog. Vendor rows
 * are matched in feed order against the caller's list of offer ids; every
 * matched row gives a record with its quantity mapped through the sentinel
 * policy and removes one occurrence of its id from that list; the ids left
 * over then get stock 0.
 */
module Stocks {
  import opened Wrappers
  import opened Records
  import opened IntParsing
  import opened OfferIds

  /**
   * The quantity policy: ">10" means 100 in stock, "1" is deliberately
   * treated as out of stock, anything else goes through `int()`, which may
   * fail (`None`). A stock is only ever read from ">10" or from text made
   * of characters `int()` accepts.
   */
  function StockFor(quantity: string): (r: Option<int>)
    ensures r.Some? && quantity != ">10" ==> forall i :: 0 <= i < |quantity| ==> IsIntChar(quantity[i])
  {
    if quantity == ">10" then Some(100)
    else if quantity == "1" then Some(0)
    else
      ParseIntAlphabet(quantity);
      ParseInt(quantity)
  }

  /**
   * The state of the matching loop: the records emitted so far and what is
   * left of the caller's list, or the error that stopped it together with
   * the list as the exception left it.
   */
  datatype Matching =
    | Done(records: seq<StockRecord>, remaining: seq<OfferId>)
    | Halted(error: QuantityError, remaining: seq<OfferId>)

  /** Records already emitted before the rest of the matching ran. */
  function After(emitted: seq<StockRecord>, m: Matching): Matching {
    match m
    case Done(records, remaining) => Done(emitted + records, remaining)
    case Halted(_, _) => m
  }

  /**
   * The first loop of `create_stocks` over the rows, as a value. It emits
   * at most one record per row.
   */
  function MatchRows(rows: seq<VendorRow>, ids: seq<OfferId>): (r: Matching)
    ensures r.Done? ==> |r.records| <= |rows|
    decreases |rows|
  {
    if rows == [] then Done([], ids)
    else
      var row := rows[0];
      if row.code !in ids then MatchRows(rows[1..], ids)
      else match StockFor(row.quantity)
        case None => Halted(QuantityError(row.code, row.quantity), ids)
        case Some(stock) => After([StockRecord(row.code, stock)], MatchRows(rows[1..], RemoveFirst(ids, row.code)))
  }

  /**
   * The ids matched plus the ids remaining are exactly the ids supplied; the
   * remaining list never gains an id, even when a row halts the loop.
   */
  lemma {:induction false} MatchRowsCounts(rows: seq<VendorRow>, ids: seq<OfferId>)
    ensures multiset(MatchRows(rows, ids).remaining) <= multiset(ids)
    ensures MatchRows(rows, ids).Done? ==>
      multiset(OfferIdsOf(MatchRows(rows, ids).records)) + multiset(MatchRows(rows, ids).remaining) == multiset(ids)
    decreases |rows|
  {
    if rows != [] {
      var row := rows[0];
      if row.code !in ids {
        MatchRowsCounts(rows[1..], ids);
      } else if StockFor(row.quantity).Some? {
        var next := RemoveFirst(ids, row.code);
        RemoveFirstCount(ids, row.code);
        MatchRowsCounts(rows[1..], next);
        var m := MatchRows(rows[1..], next);
        var rec := StockRecord(row.code, StockFor(row.quantity).value);
        assert MatchRows(rows, ids) == After([rec], m);
        if m.Done? {
          MatchedOneMore(rec, m.records, m.remaining, next, ids);
        }
      }
    }
  }

  lemma MatchedOneMore(rec: StockRecord, records: seq<StockRecord>, remaining: seq<OfferId>, next: seq<OfferId>, ids: seq<OfferId>)
    requires rec.offerId in ids && next == RemoveFirst(ids, rec.offerId)
    requires multiset(OfferIdsOf(records)) + multiset(remaining) == multiset(next)
    ensures multiset(OfferIdsOf([rec] + records)) + multiset(remaining) == multiset(ids)
  {
    RemoveFirstCount(ids, rec.offerId);
    OfferIdsOfConcat([rec], records);
    assert OfferIdsOf([rec]) == [rec.offerId];
    calc {
      multiset(OfferIdsOf([rec] + records)) + multiset(remaining);
      multiset([rec.offerId] + OfferIdsOf(records)) + multiset(remaining);
      multiset{rec.offerId} + (multiset(OfferIdsOf(records)) + multiset(remaining));
      multiset{rec.offerId} + multiset(next);
      multiset(ids);
    }
  }

  /** The second loop: a zero-stock record per left-over id, in list order. */
  function ZeroStocks(ids: seq<OfferId>): (z: seq<StockRecord>)
    ensures |z| == |ids|
    ensures forall k :: 0 <= k < |ids| ==> z[k] == StockRecord(ids[k], 0)
  {
    if ids == [] then [] else [StockRecord(ids[0], 0)] + ZeroStocks(ids[1..])
  }

  /**
   * What `create_stocks` returns, or the error it raises: one record per id
   * of the list, the matched ones first and stock 0 for every one after them.
   */
  function StocksOf(rows: seq<VendorRow>, ids: seq<OfferId>): (r: Result<seq<StockRecord>, QuantityError>)
    ensures MatchRows(rows, ids).Done? ==> r.Ok? && |r.value| == |ids|
    ensures MatchRows(rows, ids).Done? ==>
      forall k :: |MatchRows(rows, ids).records| <= k < |r.value| ==> r.value[k].stock == 0
  {
    MatchRowsCounts(rows, ids);
    match MatchRows(rows, ids)
    case Done(records, remaining) => Ok(records + ZeroStocks(remaining))
    case Halted(error, _) => Err(error)
  }

  method CreateStocks(rows: seq<VendorRow>, offerIds: OfferIdList) returns (r: Result<seq<StockRecord>, QuantityError>)
    modifies offerIds
    ensures r == StocksOf(rows, old(offerIds.items))
    ensures offerIds.items == MatchRows(rows, old(offerIds.items)).remaining
  {
    var stocks: seq<StockRecord> := [];
    var i := 0;
    while i < |rows|
      invariant 0 <= i <= |rows|
      invariant After(stocks, MatchRows(rows[i..], offerIds.items)) == MatchRows(rows, old(offerIds.items))
    {
      var row := rows[i];
      MatchRowsStep(rows, i, offerIds.items);
      if row.code in offerIds.items {
        var count := row.quantity;
        var stock: int;
        if count == ">10" {
          stock := 100;
        } else if count == "1" {
          stock := 0;
        } else {
          var parsed := ParseInt(row.quantity);
          if parsed.None? {
            assert MatchRows(rows, old(offerIds.items)) == Halted(QuantityError(row.code, row.quantity), offerIds.items) by {
              assert StockFor(count).None?;
            }
            return Err(QuantityError(row.code, row.quantity));
          }
          stock := parsed.value;
        }
        assert StockFor(count) == Some(stock);
        AfterAfter(stocks, [StockRecord(row.code, stock)], MatchRows(rows[i + 1..], RemoveFirst(offerIds.items, row.code)));
        stocks := stocks + [StockRecord(row.code, stock)];
        var removed := offerIds.Remove(row.code);
      }
      i := i + 1;
    }
    assert MatchRows(rows, old(offerIds.items)) == Done(stocks, offerIds.items) by {
      assert rows[i..] == [];
      assert stocks + [] == stocks;
    }
    ghost var matched := stocks;
    var remaining := offerIds.items;
    var j := 0;
    while j < |remaining|
      invariant 0 <= j <= |remaining|
      invariant stocks == matched + ZeroStocks(remaining[..j])
      invariant offerIds.items == remaining
    {
      ZeroStocksSnoc(remaining[..j], remaining[j]);
      assert remaining[..j + 1] == remaining[..j] + [remaining[j]];
      stocks := stocks + [StockRecord(remaining[j], 0)];
      j := j + 1;
    }
    assert remaining[..j] == remaining;
    r := Ok(stocks);
  }

  /** One turn of the matching loop, on the rows from index `i` on. */
  lemma MatchRowsStep(rows: seq<VendorRow>, i: nat, ids: seq<OfferId>)
    requires i < |rows|
    ensures rows[i].code !in ids ==> MatchRows(rows[i..], ids) == MatchRows(rows[i + 1..], ids)
    ensures rows[i].code in ids && StockFor(rows[i].quantity).None? ==>
      MatchRows(rows[i..], ids) == Halted(QuantityError(rows[i].code, rows[i].quantity), ids)
    ensures rows[i].code in ids && StockFor(rows[i].quantity).Some? ==>
      MatchRows(rows[i..], ids) ==
      After([StockRecord(rows[i].code, StockFor(rows[i].quantity).value)], MatchRows(rows[i + 1..], RemoveFirst(ids, rows[i].code)))
  {
    assert rows[i..][0] == rows[i] && rows[i..][1..] == rows[i + 1..];
  }

  lemma ZeroStocksSnoc(ids: seq<OfferId>, x: OfferId)
    ensures ZeroStocks(ids + [x]) == ZeroStocks(ids) + [StockRecord(x, 0)]
  {
    var z := ZeroStocks(ids + [x]);
    assert |z| == |ids| + 1;
    forall k | 0 <= k < |z| ensures z[k] == (ZeroStocks(ids) + [StockRecord(x, 0)])[k] {
      assert (ids + [x])[k] == if k < |ids| then ids[k] else x;
    }
  }

  lemma AfterAfter(a: seq<StockRecord>, b: seq<StockRecord>, m: Matching)
    ensures After(a, After(b, m)) == After(a + b, m)
  {
    if m.Done? {
      assert a + (b + m.records) == (a + b) + m.records;
    }
  }

  /**
   * Feed order: matching `a + b` is matching `a`, then matching `b` against
   * what `a` left of the list.
   */
  lemma {:induction false} MatchRowsConcat(a: seq<VendorRow>, b: seq<VendorRow>, ids: seq<OfferId>)
    ensures var m := MatchRows(a, ids);
      MatchRows(a + b, ids) == if m.Done? then After(m.records, MatchRows(b, m.remaining)) else m
    decreases |a|
  {
    if a == [] {
      assert a + b == b;
      assert After([], MatchRows(b, ids)) == MatchRows(b, ids);
    } else {
      assert (a + b)[0] == a[0] && (a + b)[1..] == a[1..] + b;
      var row := a[0];
      if row.code !in ids {
        MatchRowsConcat(a[1..], b, ids);
      } else if StockFor(row.quantity).Some? {
        var rest := RemoveFirst(ids, row.code);
        MatchRowsConcat(a[1..], b, rest);
        var m := MatchRows(a[1..], rest);
        if m.Done? {
          AfterAfter([StockRecord(row.code, StockFor(row.quantity).value)], m.records, MatchRows(b, m.remaining));
        }
      }
    }
  }

  /**
   * `create_stocks` covers the catalog exactly: as many records as ids were
   * supplied, and the offer ids of the records are the supplied ids, each as
   * often as it was supplied.
   */
  lemma StocksCoverCatalog(rows: seq<VendorRow>, ids: seq<OfferId>)
    requires StocksOf(rows, ids).Ok?
    ensures |StocksOf(rows, ids).value| == |ids|
    ensures multiset(OfferIdsOf(StocksOf(rows, ids).value)) == multiset(ids)
  {
    var m := MatchRows(rows, ids);
    var v := m.records + ZeroStocks(m.remaining);
    assert StocksOf(rows, ids).value == v;
    MatchRowsCounts(rows, ids);
    OfferIdsOfConcat(m.records, ZeroStocks(m.remaining));
    OfferIdsOfZeroStocks(m.remaining);
    assert multiset(OfferIdsOf(v)) == multiset(OfferIdsOf(m.records)) + multiset(m.remaining);
  }

  lemma OfferIdsOfZeroStocks(ids: seq<OfferId>)
    ensures OfferIdsOf(ZeroStocks(ids)) == ids
  {
  }

  /** A catalog without repeated ids gives stock records without repeated ids. */
  lemma StocksDistinct(rows: seq<VendorRow>, ids: seq<OfferId>)
    requires StocksOf(rows, ids).Ok? && Distinct(ids)
    ensures Distinct(OfferIdsOf(StocksOf(rows, ids).value))
  {
    StocksCoverCatalog(rows, ids);
    DistinctCounts(ids);
    DistinctCounts(OfferIdsOf(StocksOf(rows, ids).value));
  }

  lemma {:induction false} DistinctCounts(s: seq<OfferId>)
    ensures Distinct(s) <==> forall x :: multiset(s)[x] <= 1
  {
    if s != [] {
      var h, t := s[0], s[1..];
      assert s == [h] + t;
      DistinctCounts(t);
      if Distinct(s) {
        forall j | 0 <= j < |t| ensures t[j] != h {
          assert s[0] != s[j + 1];
        }
        assert Distinct(t) by {
          forall i, j | 0 <= i < j < |t| ensures t[i] != t[j] {
            assert s[i + 1] != s[j + 1];
          }
        }
      }
      if forall x :: multiset(s)[x] <= 1 {
        assert multiset(s)[h] <= 1;
        assert h !in t;
        assert forall x :: multiset(t)[x] <= multiset(s)[x];
        forall i, j | 0 <= i < j < |s| ensures s[i] != s[j] {
          if i == 0 {
            assert s[j] in t;
          } else {
            assert s[i] == t[i - 1] && s[j] == t[j - 1];
          }
        }
      }
    }
  }

  /** `rec` was produced by row `rows[j]` of the feed. */
  ghost predicate FromRow(rec: StockRecord, rows: seq<VendorRow>) {
    exists j :: 0 <= j < |rows| && rows[j].code == rec.offerId && StockFor(rows[j].quantity) == Some(rec.stock)
  }

  /**
   * Every matched record comes from a row of the feed whose code it carries
   * and whose quantity the policy maps to its stock.
   */
  lemma {:induction false} MatchedRecordsFromFeed(rows: seq<VendorRow>, ids: seq<OfferId>)
    requires MatchRows(rows, ids).Done?
    ensures forall k :: 0 <= k < |MatchRows(rows, ids).records| ==> FromRow(MatchRows(rows, ids).records[k], rows)
    decreases |rows|
  {
    if rows != [] {
      var row := rows[0];
      var next := if row.code in ids then RemoveFirst(ids, row.code) else ids;
      MatchedRecordsFromFeed(rows[1..], next);
      var tail := MatchRows(rows[1..], next).records;
      forall k | 0 <= k < |tail| ensures FromRow(tail[k], rows) {
        ShiftFromRow(tail[k], rows);
      }
      if row.code in ids {
        var rec := StockRecord(row.code, StockFor(row.quantity).value);
        assert MatchRows(rows, ids).records == [rec] + tail;
        assert FromRow(rec, rows) by {
          assert rows[0].code == rec.offerId;
        }
      }
    }
  }

  lemma ShiftFromRow(rec: StockRecord, rows: seq<VendorRow>)
    requires rows != [] && FromRow(rec, rows[1..])
    ensures FromRow(rec, rows)
  {
    var j :| 0 <= j < |rows[1..]| && rows[1..][j].code == rec.offerId && StockFor(rows[1..][j].quantity) == Some(rec.stock);
    assert rows[j + 1] == rows[1..][j];
  }

  /** An offer id of the catalog that no row of the feed carries gets stock 0. */
  lemma UnlistedIdGetsZero(rows: seq<VendorRow>, ids: seq<OfferId>, id: OfferId)
    requires StocksOf(rows, ids).Ok? && id in ids
    requires forall j :: 0 <= j < |rows| ==> rows[j].code != id
    ensures StockRecord(id, 0) in StocksOf(rows, ids).value
  {
    var m := MatchRows(rows, ids);
    var matchedIds := OfferIdsOf(m.records);
    assert id !in matchedIds by {
      MatchedRecordsFromFeed(rows, ids);
      forall k | 0 <= k < |matchedIds| ensures matchedIds[k] != id {
        assert FromRow(m.records[k], rows);
      }
    }
    assert id in m.remaining by {
      MatchRowsCounts(rows, ids);
      assert multiset(matchedIds)[id] == 0;
      assert multiset(m.remaining)[id] == multiset(ids)[id];
    }
    var k :| 0 <= k < |m.remaining| && m.remaining[k] == id;
    var z := ZeroStocks(m.remaining);
    assert StocksOf(rows, ids).value == m.records + z;
    assert (m.records + z)[|m.records| + k] == z[k] == StockRecord(id, 0);
  }

  /** Applies `list.remove` once for each id of `xs`, in order. */
  function RemoveEach(ids: seq<OfferId>, xs: seq<OfferId>): (r: seq<OfferId>)
    ensures multiset(r) <= multiset(ids)
    decreases |xs|
  {
    if xs == [] then ids
    else
      RemoveFirstCount(ids, xs[0]);
      RemoveEach(RemoveFirst(ids, xs[0]), xs[1..])
  }

  /**
   * What the caller's list holds after a run that raised nothing: the
   * supplied ids with one occurrence removed per matched record, in
   * matching order.
   */
  lemma {:induction false} RemainingAfterMatches(rows: seq<VendorRow>, ids: seq<OfferId>)
    requires MatchRows(rows, ids).Done?
    ensures MatchRows(rows, ids).remaining == RemoveEach(ids, OfferIdsOf(MatchRows(rows, ids).records))
    decreases |rows|
  {
    if rows != [] {
      var row := rows[0];
      if row.code !in ids {
        RemainingAfterMatches(rows[1..], ids);
      } else {
        var next := RemoveFirst(ids, row.code);
        RemainingAfterMatches(rows[1..], next);
        var m := MatchRows(rows[1..], next);
        var rec := StockRecord(row.code, StockFor(row.quantity).value);
        OfferIdsOfConcat([rec], m.records);
        assert ([row.code] + OfferIdsOf(m.records))[1..] == OfferIdsOf(m.records);
      }
    }
  }

  /**
   * First occurrence wins: when the catalog holds an id once, a second row
   * with that code is skipped — its quantity is not even read.
   */
  lemma DuplicateRowIgnored(first: VendorRow, second: VendorRow, ids: seq<OfferId>, stock: int)
    requires first.code == second.code && multiset(ids)[first.code] == 1
    requires StockFor(first.quantity) == Some(stock)
    ensures MatchRows([first, second], ids) == Done([StockRecord(first.code, stock)], RemoveFirst(ids, first.code))
  {
    var rest := RemoveFirst(ids, first.code);
    RemoveFirstCount(ids, first.code);
    assert first.code !in rest by {
      assert multiset(rest)[first.code] == 0;
    }
    var rows := [first, second];
    assert rows[0] == first && rows[1..] == [second];
    assert first.code in ids;
    assert MatchRows(rows, ids) == After([StockRecord(first.code, stock)], MatchRows([second], rest));
    assert [second][1..] == [];
    assert MatchRows([second], rest) == MatchRows([], rest);
    assert [StockRecord(first.code, stock)] + [] == [StockRecord(first.code, stock)];
  }

  /**
   * An id that occurs at most once in the catalog and that some row of the
   * feed carries is no longer in the caller's list once `create_stocks`
   * has finished.
   */
  lemma {:induction false} MatchedIdConsumed(rows: seq<VendorRow>, ids: seq<OfferId>, j: nat)
    requires j < |rows| && multiset(ids)[rows[j].code] <= 1
    requires MatchRows(rows, ids).Done?
    ensures rows[j].code !in MatchRows(rows, ids).remaining
    decreases |rows|
  {
    var c := rows[j].code;
    var row := rows[0];
    var next := if row.code in ids then RemoveFirst(ids, row.code) else ids;
    RemoveFirstCount(ids, row.code);
    var m := MatchRows(rows[1..], next);
    if j == 0 {
      if c in ids {
        assert multiset(next)[c] == 0;
      }
      MatchRowsCounts(rows[1..], next);
    } else {
      assert rows[1..][j - 1] == rows[j];
      assert multiset(next)[c] <= multiset(ids)[c];
      MatchedIdConsumed(rows[1..], next, j - 1);
    }
  }

  /** A failure names a row whose code is in the catalog and whose quantity `int()` rejects. */
  ghost predicate NamesBadRow(e: QuantityError, rows: seq<VendorRow>, ids: seq<OfferId>) {
    exists j :: 0 <= j < |rows| && rows[j].code == e.code && rows[j].quantity == e.quantity &&
      e.code in ids && StockFor(e.quantity) == None
  }

  lemma {:induction false} FailureNamesBadRow(rows: seq<VendorRow>, ids: seq<OfferId>)
    requires MatchRows(rows, ids).Halted?
    ensures NamesBadRow(MatchRows(rows, ids).error, rows, ids)
    decreases |rows|
  {
    var row := rows[0];
    if row.code in ids && StockFor(row.quantity).None? {
      assert rows[0].code == row.code;
    } else {
      var next := if row.code in ids then RemoveFirst(ids, row.code) else ids;
      RemoveFirstCount(ids, row.code);
      FailureNamesBadRow(rows[1..], next);
      var e := MatchRows(rows, ids).error;
      var j :| 0 <= j < |rows[1..]| && rows[1..][j].code == e.code && rows[1..][j].quantity == e.quantity &&
        e.code in next && StockFor(e.quantity) == None;
      assert rows[j + 1] == rows[1..][j];
      assert e.code in multiset(next);
    }
  }

  /** The converse: a feed whose listed rows all have accepted quantities never raises. */
  lemma {:induction false} MatchRowsSucceeds(rows: seq<VendorRow>, ids: seq<OfferId>)
    requires forall j :: 0 <= j < |rows| && rows[j].code in ids ==> StockFor(rows[j].quantity).Some?
    ensures MatchRows(rows, ids).Done?
    decreases |rows|
  {
    if rows != [] {
      var next := if rows[0].code in ids then RemoveFirst(ids, rows[0].code) else ids;
      RemoveFirstCount(ids, rows[0].code);
      forall j | 0 <= j < |rows[1..]| && rows[1..][j].code in next
        ensures StockFor(rows[1..][j].quantity).Some?
      {
        assert rows[1..][j] == rows[j + 1];
        assert rows[j + 1].code in multiset(next);
      }
      MatchRowsSucceeds(rows[1..], next);
    }
  }

  /**
   * The quantity policy against decimal notation: ">10" reads as 100, "1"
   * as 0, and every other integer as itself; a quantity holding a character
   * `int()` never accepts is an error.
   */
  lemma QuantityPolicy(n: int, q: string)
    ensures StockFor(">10") == Some(100) && StockFor("1") == Some(0)
    ensures n != 1 ==> StockFor(ShowInt(n)) == Some(n)
    ensures q != ">10" && (exists i :: 0 <= i < |q| && !IsIntChar(q[i])) ==> StockFor(q).None?
  {
    ParseShowRoundTrip(n);
    ParseShowRoundTrip(1);
    assert ShowInt(1) == "1" by {
      assert DigitChar(1) == '1';
    }
    assert ShowInt(n)[0] != '>' by {
      if n >= 0 {
        assert IsDigit(ShowNat(n)[0]);
      }
    }
  }

  /** A few quantities of the feed, and a control character `int()` does not skip. */
  lemma QuantityExamples()
    ensures StockFor("7") == Some(7)
    ensures StockFor("0") == Some(0)
    ensures StockFor("-3") == Some(-3)
    ensures StockFor("abc") == None
    ensures StockFor("\U{1C}5") == None
  {
    assert ShowInt(7) == "7" by { assert DigitChar(7) == '7'; }
    assert ShowInt(0) == "0" by { assert DigitChar(0) == '0'; }
    assert ShowInt(-3) == "-3" by { assert DigitChar(3) == '3'; assert ShowNat(3) == "3"; }
    QuantityPolicy(7, "abc");
    QuantityPolicy(0, "\U{1C}5");
    QuantityPolicy(-3, "abc");
    assert !IsIntChar("abc"[0]) && !IsIntChar("\U{1C}5"[0]);
  }

  /**
   * The `not_empty` filter of the stock upload: only records whose stock
   * is not 0.
   */
  function NotEmpty(stocks: seq<StockRecord>): (r: seq<StockRecord>)
    ensures |r| <= |stocks|
    ensures forall k :: 0 <= k < |r| ==> r[k].stock != 0
  {
    if stocks == [] then []
    else (if stocks[0].stock != 0 then [stocks[0]] else []) + NotEmpty(stocks[1..])
  }

  /** Every record whose stock is not 0 is kept as many times as it occurs, and nothing else is kept. */
  lemma {:induction false} NotEmptyCounts(stocks: seq<StockRecord>)
    ensures forall x :: multiset(NotEmpty(stocks))[x] == if x.stock != 0 then multiset(stocks)[x] else 0
  {
    if stocks != [] {
      assert stocks == [stocks[0]] + stocks[1..];
      NotEmptyCounts(stocks[1..]);
    }
  }

  /** The filter keeps feed order: it works record by record. */
  lemma {:induction false} NotEmptyConcat(a: seq<StockRecord>, b: seq<StockRecord>)
    ensures NotEmpty(a + b) == NotEmpty(a) + NotEmpty(b)
  {
    if a == [] {
      assert a + b == b;
    } else {
      var head := if a[0].stock != 0 then [a[0]] else [];
      calc {
        NotEmpty(a + b);
        { assert (a + b)[0] == a[0] && (a + b)[1..] == a[1..] + b; }
        head + NotEmpty(a[1..] + b);
        { NotEmptyConcat(a[1..], b); }
        head + (NotEmpty(a[1..]) + NotEmpty(b));
        (head + NotEmpty(a[1..])) + NotEmpty(b);
      }
    }
  }
}
