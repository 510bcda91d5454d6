/** The Yandex Market integration (market.py): the `nextPageToken` listing
    loop, the stock records with a warehouse and a timestamp, the integer
    price records, and the `not_empty` filter of `upload_stocks`. */
module Market {
  import opened Inventory
  import opened Reconciler
  import Seller

  // ---------------------------------------------------------------------------
  // get_offer_ids

  datatype MarketEntry = MarketEntry(shopSku: string)

  /** One response of the offer-mapping list: its entries and the
      `nextPageToken` of its paging block, absent on the last page. */
  datatype MarketPage = MarketPage(entries: seq<MarketEntry>, nextPageToken: Option<string>)

  /** The value `page` takes after a response: the token, or None read as "". */
  function Token(page: MarketPage): (t: string)
    ensures page.nextPageToken.None? ==> t == ""
    ensures page.nextPageToken.Some? ==> t == page.nextPageToken.value
  {
    match page.nextPageToken
    case None => ""
    case Some(t) => t
  }

  /** `if not page: break`: the token is absent or empty. */
  predicate LastPage(page: MarketPage)
    ensures LastPage(page) <==> page.nextPageToken == None || page.nextPageToken == Some("")
  {
    Token(page) == ""
  }

  /** The entries of the given pages, in page order. */
  function Entries(pages: seq<MarketPage>): seq<MarketEntry> {
    if pages == [] then [] else Entries(pages[..|pages| - 1]) + pages[|pages| - 1].entries
  }

  /** The first page, from `from` on, after which the loop breaks. */
  function FirstLast(pages: seq<MarketPage>, from: nat): (r: Option<nat>)
    requires from <= |pages|
    ensures r.Some? ==> from <= r.value < |pages| && LastPage(pages[r.value])
    ensures forall j :: from <= j < |pages| && (r.None? || j < r.value) ==> !LastPage(pages[j])
    decreases |pages| - from
  {
    if from == |pages| then None
    else if LastPage(pages[from]) then Some(from)
    else FirstLast(pages, from + 1)
  }

  /** The page token of each request: "" first, then the previous token. */
  function MarketCursors(pages: seq<MarketPage>): seq<string> {
    seq(|pages|, j requires 0 <= j < |pages| => if j == 0 then "" else Token(pages[j - 1]))
  }

  function SkusOf(entries: seq<MarketEntry>): seq<string> {
    seq(|entries|, j requires 0 <= j < |entries| => entries[j].shopSku)
  }

  /** get_offer_ids over a sequence of responses: the shopSku of every entry
      up to and including the first page without a next token. */
  function MarketListing(pages: seq<MarketPage>): (r: Result<Listing>)
    ensures r.Ok? ==> 1 <= |r.value.cursors| <= |pages| && r.value.cursors[0] == ""
    ensures r.Err? ==> r.error == PagesExhausted
  {
    match FirstLast(pages, 0)
    case None => Err(PagesExhausted)
    case Some(k) => Ok(Listing(SkusOf(Entries(pages[..k + 1])), MarketCursors(pages[..k + 1])))
  }

  /** What the listing promises: at least one request, the first with token ""
      and each later one with the previous page's token; it stops at the
      first page whose token is absent or empty, and returns the shopSku of
      every entry received, in order. */
  lemma MarketListingSpec(pages: seq<MarketPage>)
    requires MarketListing(pages).Ok?
    ensures var l := MarketListing(pages).value;
            var k := |l.cursors| - 1;
            1 <= |l.cursors| <= |pages| && l.cursors[0] == "" &&
            (forall j :: 0 < j <= k ==> l.cursors[j] == Token(pages[j - 1]) && l.cursors[j] != "") &&
            LastPage(pages[k]) && (forall j :: 0 <= j < k ==> !LastPage(pages[j])) &&
            |l.offerIds| == |Entries(pages[..k + 1])| &&
            (forall j :: 0 <= j < |l.offerIds| ==> l.offerIds[j] == Entries(pages[..k + 1])[j].shopSku)
  {
    var k := FirstLast(pages, 0).value;
    var l := MarketListing(pages).value;
    forall j | 0 < j <= k
      ensures l.cursors[j] == Token(pages[j - 1]) && l.cursors[j] != ""
    {
      assert !LastPage(pages[j - 1]);
    }
  }

  /** The listing fails exactly when every page carries a next token: in the
      source the loop then keeps requesting pages. */
  lemma MarketListingFails(pages: seq<MarketPage>)
    ensures MarketListing(pages).Err? <==> forall j :: 0 <= j < |pages| ==> !LastPage(pages[j])
  {
    if MarketListing(pages).Ok? {
      MarketListingSpec(pages);
    }
  }

  /** Pages of 200, 200 and 50 entries, the last without a token, give 450
      identifiers from three requests. */
  lemma MarketListingThreePages(pages: seq<MarketPage>)
    requires |pages| == 3
    requires |pages[0].entries| == 200 && |pages[1].entries| == 200 && |pages[2].entries| == 50
    requires !LastPage(pages[0]) && !LastPage(pages[1]) && LastPage(pages[2])
    ensures MarketListing(pages).Ok?
    ensures |MarketListing(pages).value.offerIds| == 450
    ensures |MarketListing(pages).value.cursors| == 3
  {
    assert FirstLast(pages, 2) == Some(2);
    assert FirstLast(pages, 0) == Some(2);
    assert pages[..3] == pages;
    assert pages[..2][..1] == pages[..1] && pages[..1][..0] == [];
    assert |Entries(pages[..1])| == 200;
    assert |Entries(pages[..2])| == 400;
  }

  /** get_offer_ids: requests pages with the last token seen until a page has
      none, then collects each entry's shopSku. */
  method GetOfferIds(pages: seq<MarketPage>) returns (r: Result<Listing>)
    ensures r == MarketListing(pages)
  {
    var page := "";
    var productList: seq<MarketEntry> := [];
    var cursors: seq<string> := [];
    var i := 0;
    var stopped := false;
    while !stopped && i < |pages|
      invariant 0 <= i <= |pages|
      invariant productList == Entries(pages[..i])
      invariant |cursors| == i
      invariant forall j :: 0 <= j < i ==> cursors[j] == if j == 0 then "" else Token(pages[j - 1])
      invariant page == if i == 0 then "" else Token(pages[i - 1])
      invariant stopped ==> 0 < i && LastPage(pages[i - 1])
      invariant forall j :: 0 <= j < i && !(stopped && j == i - 1) ==> !LastPage(pages[j])
      decreases |pages| - i
    {
      var someProd := pages[i];
      cursors := cursors + [page];
      productList := productList + someProd.entries;
      page := Token(someProd);
      assert pages[..i + 1][..i] == pages[..i];
      i := i + 1;
      stopped := page == "";
    }
    if !stopped {
      assert FirstLast(pages, 0) == None;
      return Err(PagesExhausted);
    }
    assert FirstLast(pages, 0) == Some(i - 1);
    var offerIds: seq<string> := [];
    var j := 0;
    while j < |productList|
      invariant 0 <= j <= |productList|
      invariant offerIds == SkusOf(productList[..j])
    {
      assert productList[..j + 1] == productList[..j] + [productList[j]];
      offerIds := offerIds + [productList[j].shopSku];
      j := j + 1;
    }
    assert productList[..j] == productList;
    assert cursors == MarketCursors(pages[..i]);
    return Ok(Listing(offerIds, cursors));
  }

  // ---------------------------------------------------------------------------
  // create_stocks

  /** {"count": ..., "type": ..., "updatedAt": ...} */
  datatype StockItem = StockItem(count: nat, kind: string, updatedAt: string)

  /** {"sku": ..., "warehouseId": ..., "items": [...]} */
  datatype MarketStock = MarketStock(sku: string, warehouseId: string, items: seq<StockItem>)

  function MarketStockOf(level: Level, warehouseId: string, date: string): MarketStock {
    MarketStock(level.code, warehouseId, [StockItem(level.count, "FIT", date)])
  }

  function MarketStocks(levels: seq<Level>, warehouseId: string, date: string): (stocks: seq<MarketStock>)
    ensures |stocks| == |levels|
    ensures forall k :: 0 <= k < |levels| ==> stocks[k] == MarketStockOf(levels[k], warehouseId, date)
  {
    seq(|levels|, k requires 0 <= k < |levels| => MarketStockOf(levels[k], warehouseId, date))
  }

  /** The records create_stocks returns for a catalogue list, a warehouse and
      the time stamp read once at the start. */
  function MarketStocksFor(rows: seq<Row>, ids: seq<string>, warehouseId: string, date: string)
    : (r: Result<seq<MarketStock>>)
    ensures r.Ok? ==> |r.value| == |ids|
  {
    var p := Reconcile(rows, ids);
    if p.levels.Ok? then Ok(MarketStocks(p.levels.value, warehouseId, date)) else Err(p.levels.error)
  }

  /** Every record names the given warehouse and holds exactly one "FIT" item
      stamped with the same time; every catalogue identifier is reported as
      often as it is listed; with a list without repeats, exactly once. */
  lemma MarketStocksShape(rows: seq<Row>, ids: seq<string>, warehouseId: string, date: string)
    requires MarketStocksFor(rows, ids, warehouseId, date).Ok?
    ensures var stocks := MarketStocksFor(rows, ids, warehouseId, date).value;
            forall k :: 0 <= k < |stocks| ==>
              stocks[k].warehouseId == warehouseId && |stocks[k].items| == 1 &&
              stocks[k].items[0].kind == "FIT" && stocks[k].items[0].updatedAt == date
    ensures var stocks := MarketStocksFor(rows, ids, warehouseId, date).value;
            multiset(seq(|stocks|, k requires 0 <= k < |stocks| => stocks[k].sku)) == multiset(ids)
    ensures var stocks := MarketStocksFor(rows, ids, warehouseId, date).value;
            Distinct(ids) ==> Distinct(seq(|stocks|, k requires 0 <= k < |stocks| => stocks[k].sku))
  {
    var stocks := MarketStocksFor(rows, ids, warehouseId, date).value;
    ReconcileCovers(rows, ids);
    assert seq(|stocks|, k requires 0 <= k < |stocks| => stocks[k].sku) == Codes(Reconcile(rows, ids).levels.value);
    if Distinct(ids) {
      ReconcileOnce(rows, ids);
    }
  }

  /** create_stocks: reports the matched rows in inventory order, then every
      identifier still listed with count 0, consuming matched identifiers
      from the caller's list; `date` stands for the clock read. */
  method CreateStocks(rows: seq<Row>, offerIds: IdList, warehouseId: string, date: string)
    returns (r: Result<seq<MarketStock>>)
    modifies offerIds
    ensures r == MarketStocksFor(rows, old(offerIds.items), warehouseId, date)
    ensures offerIds.items == Match(rows, old(offerIds.items)).left
  {
    ghost var ids0 := offerIds.items;
    ghost var levels: seq<Level> := [];
    var stocks: seq<MarketStock> := [];
    var i := 0;
    assert rows[0..] == rows;
    PrependNothing(Match(rows, ids0));
    while i < |rows|
      invariant 0 <= i <= |rows|
      invariant stocks == MarketStocks(levels, warehouseId, date)
      invariant Match(rows, ids0) == Prepend(levels, Match(rows[i..], offerIds.items))
    {
      var watch := rows[i];
      MatchStep(rows, i, offerIds.items);
      if watch.code in offerIds.items {
        var stock := Quantity(watch.quantity);
        if stock.Err? {
          return Err(stock.error);
        }
        stocks := stocks + [MarketStock(watch.code, warehouseId, [StockItem(stock.value, "FIT", date)])];
        PrependTwice(levels, Level(watch.code, stock.value), Match(rows[i + 1..], RemoveFirst(offerIds.items, watch.code)));
        offerIds.Remove(watch.code);
        levels := levels + [Level(watch.code, stock.value)];
      }
      i := i + 1;
    }
    assert rows[i..] == [];
    assert Match(rows, ids0) == Pass(Ok(levels), offerIds.items) by {
      assert levels + [] == levels;
    }
    ghost var matched := levels;
    var j := 0;
    while j < |offerIds.items|
      invariant 0 <= j <= |offerIds.items|
      invariant stocks == MarketStocks(matched + ZeroLevels(offerIds.items[..j]), warehouseId, date)
    {
      assert offerIds.items[..j + 1] == offerIds.items[..j] + [offerIds.items[j]];
      assert ZeroLevels(offerIds.items[..j + 1]) == ZeroLevels(offerIds.items[..j]) + [Level(offerIds.items[j], 0)];
      stocks := stocks + [MarketStock(offerIds.items[j], warehouseId, [StockItem(0, "FIT", date)])];
      j := j + 1;
    }
    assert offerIds.items[..j] == offerIds.items;
    return Ok(stocks);
  }

  // ---------------------------------------------------------------------------
  // create_prices

  /** {"id": ..., "price": {"value": ..., "currencyId": ...}} */
  datatype MarketPrice = MarketPrice(id: string, value: nat, currencyId: string)

  /** int(price_conversion(price)): fails exactly when no digit precedes the
      first ".". */
  function PriceValue(price: string): (r: Result<nat>)
    ensures r.Ok? <==> Seller.PriceConversion(price) != ""
    ensures r.Err? ==> r.error == NotAnInteger("")
  {
    ParseInt(Seller.PriceConversion(price))
  }

  /** The records create_prices returns: one per row whose code is listed, in
      inventory order, with the integer price in roubles. A listed row whose
      price has no digits before the dot aborts the whole call. */
  function MarketPrices(rows: seq<Row>, ids: seq<string>): (r: Result<seq<MarketPrice>>)
    ensures r.Ok? <==> forall k :: 0 <= k < |rows| && rows[k].code in ids ==> PriceValue(rows[k].price).Ok?
    ensures r.Err? ==> r.error == NotAnInteger("")
    decreases |rows|
  {
    if rows == [] then Ok([])
    else
      var init := rows[..|rows| - 1];
      var last := rows[|rows| - 1];
      assert forall k :: 0 <= k < |init| ==> init[k] == rows[k];
      match MarketPrices(init, ids)
      case Err(e) => Err(e)
      case Ok(prices) =>
        if last.code !in ids then Ok(prices)
        else match PriceValue(last.price)
          case Err(e) => Err(e)
          case Ok(v) => Ok(prices + [MarketPrice(last.code, v, "RUR")])
  }

  /** When create_prices succeeds, record `k` belongs to the `k`-th listed
      row: its id is the row's code, its currency "RUR" and its value the
      integer of the normalised price. */
  lemma {:induction false} MarketPricesRecords(rows: seq<Row>, ids: seq<string>)
    requires MarketPrices(rows, ids).Ok?
    ensures var prices := MarketPrices(rows, ids).value;
            |prices| == |Priced(rows, ids)| &&
            forall k :: 0 <= k < |prices| ==>
              prices[k].id == Priced(rows, ids)[k].code && prices[k].currencyId == "RUR" &&
              PriceValue(Priced(rows, ids)[k].price) == Ok(prices[k].value)
    decreases |rows|
  {
    if rows != [] {
      var init := rows[..|rows| - 1];
      var last := rows[|rows| - 1];
      assert Priced(rows, ids) == Priced(init, ids) + (if CodeIn(ids)(last) then [last] else []);
      MarketPricesRecords(init, ids);
      if last.code in ids {
        assert MarketPrices(rows, ids).value
            == MarketPrices(init, ids).value + [MarketPrice(last.code, PriceValue(last.price).value, "RUR")];
      } else {
        assert MarketPrices(rows, ids).value == MarketPrices(init, ids).value;
      }
    }
  }

  /** create_prices: reads the caller's list and leaves it as it is. */
  method CreatePrices(rows: seq<Row>, offerIds: IdList) returns (r: Result<seq<MarketPrice>>)
    ensures r == MarketPrices(rows, offerIds.items)
  {
    var prices: seq<MarketPrice> := [];
    var i := 0;
    while i < |rows|
      invariant 0 <= i <= |rows|
      invariant MarketPrices(rows[..i], offerIds.items) == Ok(prices)
    {
      var watch := rows[i];
      assert rows[..i + 1][..i] == rows[..i];
      if watch.code in offerIds.items {
        var value := PriceValue(watch.price);
        if value.Err? {
          assert rows[i] == watch && watch.code in offerIds.items;
          return Err(value.error);
        }
        prices := prices + [MarketPrice(watch.code, value.value, "RUR")];
      }
      i := i + 1;
    }
    assert rows[..i] == rows;
    return Ok(prices);
  }

  // ---------------------------------------------------------------------------
  // upload_stocks

  /** The lambda of `not_empty`: the first item's count is not 0. */
  predicate InStock(stock: MarketStock)
    ensures InStock(stock) ==> stock.items != [] && stock.items[0].count > 0
  {
    |stock.items| > 0 && stock.items[0].count != 0
  }

  /** not_empty: the records whose first item has a count other than 0. The
      source reads `items[0]`, so every record must hold an item. */
  function NotEmpty(stocks: seq<MarketStock>): (r: seq<MarketStock>)
    requires forall k :: 0 <= k < |stocks| ==> |stocks[k].items| > 0
    ensures |r| <= |stocks|
    ensures forall k :: 0 <= k < |r| ==> InStock(r[k]) && r[k] in stocks
  {
    Filter(stocks, InStock)
  }

  /** not_empty keeps every record with a count other than 0, and keeps them
      in the order of `stocks`. */
  lemma NotEmptyKeepsEveryStocked(stocks: seq<MarketStock>, i: nat)
    requires forall k :: 0 <= k < |stocks| ==> |stocks[k].items| > 0
    requires i < |stocks| && stocks[i].items[0].count != 0
    ensures stocks[i] in NotEmpty(stocks)
    ensures IsSubsequence(NotEmpty(stocks), stocks)
  {
    FilterComplete(stocks, InStock, i);
    FilterIsSubsequence(stocks, InStock);
  }

  /** What upload_stocks computes: the batches of 2000 it uploads, the
      records with stock, and all records. */
  datatype StockUpload = StockUpload(batches: seq<seq<MarketStock>>, notEmpty: seq<MarketStock>,
                                     stocks: seq<MarketStock>)

  /** upload_stocks over the listing's responses. */
  function UploadStocks(pages: seq<MarketPage>, rows: seq<Row>, warehouseId: string, date: string)
    : (r: Result<StockUpload>)
    ensures r.Ok? ==> |r.value.notEmpty| <= |r.value.stocks|
    ensures r.Err? ==> r.error == PagesExhausted || r.error.NotAnInteger?
  {
    match MarketListing(pages)
    case Err(e) => Err(e)
    case Ok(listing) =>
      match MarketStocksFor(rows, listing.offerIds, warehouseId, date)
      case Err(e) => Err(e)
      case Ok(stocks) =>
        MarketStocksShape(rows, listing.offerIds, warehouseId, date);
        Ok(StockUpload(Seller.Divide(stocks, 2000), NotEmpty(stocks), stocks))
  }

  /** The batches upload_stocks sends, put back together, are the records,
      each batch holds 1 to 2000 of them, and the records it reports as in
      stock are, in order, records of the given warehouse with a count other
      than 0. */
  lemma UploadStocksSpec(pages: seq<MarketPage>, rows: seq<Row>, warehouseId: string, date: string)
    requires UploadStocks(pages, rows, warehouseId, date).Ok?
    ensures var u := UploadStocks(pages, rows, warehouseId, date).value;
            Seller.Flatten(u.batches) == u.stocks &&
            (forall b :: 0 <= b < |u.batches| ==> 0 < |u.batches[b]| <= 2000) &&
            IsSubsequence(u.notEmpty, u.stocks) &&
            (forall k :: 0 <= k < |u.notEmpty| ==>
               u.notEmpty[k].items[0].count != 0 && u.notEmpty[k].warehouseId == warehouseId)
  {
    var ids := MarketListing(pages).value.offerIds;
    var stocks := MarketStocksFor(rows, ids, warehouseId, date).value;
    assert UploadStocks(pages, rows, warehouseId, date).value
        == StockUpload(Seller.Divide(stocks, 2000), NotEmpty(stocks), stocks);
    MarketStocksShape(rows, ids, warehouseId, date);
    Seller.DivideFlatten(stocks, 2000);
    var batches := Seller.Divide(stocks, 2000);
    forall b | 0 <= b < |batches|
      ensures 0 < |batches[b]| <= 2000
    {
      if b < |batches| - 1 {
        assert |batches[b]| == 2000;
      }
    }
    FilterIsSubsequence(stocks, InStock);
  }
}
