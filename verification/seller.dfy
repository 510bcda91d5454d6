/** The Ozon integration (seller.py): price normalisation, chunking, the
    `last_id` listing loop, the stock and price records, and the sequence in
    which `main` builds and uploads them. */
module Seller {
  import opened Inventory
  import opened Reconciler

  // ---------------------------------------------------------------------------
  // price_conversion

  /** Python's str.split(sep): the pieces between separators, at least one. */
  function Split(s: string, sep: char): (parts: seq<string>)
    ensures |parts| >= 1
    ensures forall i :: 0 <= i < |parts| ==> sep !in parts[i]
    ensures Join(parts, sep) == s
    decreases |s|
  {
    if sep !in s then [s]
    else
      var i := FirstIndex(s, sep);
      var rest := Split(s[i + 1..], sep);
      assert ([s[..i]] + rest)[1..] == rest;
      assert s == s[..i] + [sep] + s[i + 1..];
      [s[..i]] + rest
  }

  /** Python's sep.join(parts). */
  function Join(parts: seq<string>, sep: char): string
    requires |parts| >= 1
  {
    if |parts| == 1 then parts[0] else parts[0] + [sep] + Join(parts[1..], sep)
  }

  /** re.sub("[^0-9]", "", s): the ASCII digits of `s`, in order. */
  function KeepDigits(s: string): (r: string)
    ensures AllDigits(r)
  {
    Filter(s, IsDigit)
  }

  /** price_conversion: the digits of the text before the first ".". */
  function PriceConversion(price: string): (r: string)
    ensures AllDigits(r)
    ensures '.' !in r
  {
    KeepDigits(Split(price, '.')[0])
  }

  /** The text before the first "." is what the digits are taken from: for
      any way of writing the price as `head + tail` where `head` has no "."
      and `tail` is empty or starts with ".", the result is the digits of `head`. */
  lemma PriceConversionBeforeFirstDot(price: string, head: string, tail: string)
    requires price == head + tail && '.' !in head && (tail == [] || tail[0] == '.')
    ensures PriceConversion(price) == KeepDigits(head)
  {
    assert price[..|head|] == head;
    assert tail != [] ==> price[|head|] == '.';
    if '.' in price {
      var i := FirstIndex(price, '.');
      assert forall j :: 0 <= j < |head| ==> price[j] == head[j];
      assert forall j :: 0 <= j < i ==> price[..i][j] == price[j];
      assert i == |head|;
    } else {
      assert price == head;
    }
  }

  /** The digit filter distributes over concatenation. */
  lemma KeepDigitsAppend(a: string, b: string)
    ensures KeepDigits(a + b) == KeepDigits(a) + KeepDigits(b)
  {
    FilterAppend(a, b, IsDigit);
  }

  /** Text made only of digits passes the digit filter unchanged. */
  lemma {:induction false} KeepDigitsOfDigits(s: string)
    requires AllDigits(s)
    ensures KeepDigits(s) == s
    decreases |s|
  {
    if s != [] {
      var init := s[..|s| - 1];
      KeepDigitsOfDigits(init);
      assert s == init + [s[|s| - 1]];
    }
  }

  /** Normalising a normalised price changes nothing. */
  lemma PriceConversionIdempotent(price: string)
    ensures PriceConversion(PriceConversion(price)) == PriceConversion(price)
  {
    var r := PriceConversion(price);
    PriceConversionBeforeFirstDot(r, r, []);
    KeepDigitsOfDigits(r);
  }

  /** A plain price with kopecks. */
  lemma PriceConversionPlain()
    ensures PriceConversion("100.00") == "100"
  {
    PriceConversionBeforeFirstDot("100.00", "100", ".00");
    KeepDigitsOfDigits("100");
  }

  /** Digits followed by kopecks or a currency suffix after the dot
      ("500.00 р.") normalise to those digits. */
  lemma PriceConversionOfDigits(digits: string, tail: string)
    requires AllDigits(digits) && (tail == [] || tail[0] == '.')
    ensures PriceConversion(digits + tail) == digits
  {
    assert '.' !in digits by {
      assert forall i :: 0 <= i < |digits| ==> digits[i] != '.';
    }
    PriceConversionBeforeFirstDot(digits + tail, digits, tail);
    KeepDigitsOfDigits(digits);
  }

  /** A price written with a thousands mark and followed by kopecks or a
      currency suffix after the dot ("5'990.00 руб.", "1,234.50 $"): the mark
      and everything after the dot are dropped. */
  lemma PriceConversionThousands(d: char, mark: char, digits: string, tail: string)
    requires IsDigit(d) && !IsDigit(mark) && mark != '.' && AllDigits(digits)
    requires tail == [] || tail[0] == '.'
    ensures PriceConversion([d, mark] + digits + tail) == [d] + digits
  {
    var head := [d, mark] + digits;
    assert '.' !in digits by {
      assert forall i :: 0 <= i < |digits| ==> digits[i] != '.';
    }
    assert forall i :: 0 <= i < |head| ==> head[i] != '.' by {
      assert forall i :: 2 <= i < |head| ==> head[i] == digits[i - 2];
    }
    PriceConversionBeforeFirstDot(head + tail, head, tail);
    KeepDigitsAppend([d, mark], digits);
    KeepDigitsOfDigits(digits);
    assert [d, mark][..1] == [d] && [d][..0] == [];
    assert KeepDigits([d]) == [d];
    assert KeepDigits([d, mark]) == [d];
  }

  // ---------------------------------------------------------------------------
  // divide

  function Flatten<T>(chunks: seq<seq<T>>): seq<T> {
    if chunks == [] then [] else chunks[0] + Flatten(chunks[1..])
  }

  function Min(a: int, b: int): int { if a <= b then a else b }

  /** divide(lst, n): consecutive slices of at most `n` elements, which put
      back together in order give `lst`; all of exactly `n` elements except
      the last, which has 1 to `n`; as many as it takes to hold `lst` and no
      more (ceil(|lst| / n), see DivideCount). */
  function Divide<T>(lst: seq<T>, n: nat): (chunks: seq<seq<T>>)
    requires n > 0
    ensures forall i :: 0 <= i < |chunks| - 1 ==> |chunks[i]| == n
    ensures |chunks| > 0 ==> 0 < |chunks[|chunks| - 1]| <= n
    ensures lst == [] <==> chunks == []
    decreases |lst|
  {
    if lst == [] then []
    else if |lst| <= n then [lst]
    else [lst[..n]] + Divide(lst[n..], n)
  }

  /** The chunks put back together in order give the list. */
  lemma {:induction false} DivideFlatten<T>(lst: seq<T>, n: nat)
    requires n > 0
    ensures Flatten(Divide(lst, n)) == lst
    decreases |lst|
  {
    if lst != [] && |lst| <= n {
      assert Flatten([lst]) == lst + Flatten([lst][1..]);
    } else if |lst| > n {
      var rest := Divide(lst[n..], n);
      DivideFlatten(lst[n..], n);
      assert ([lst[..n]] + rest)[1..] == rest;
      assert lst[..n] + lst[n..] == lst;
    }
  }

  /** divide yields the fewest chunks of `n` that hold `lst`. */
  lemma {:induction false} DivideBounds<T>(lst: seq<T>, n: nat)
    requires n > 0
    ensures |lst| <= |Divide(lst, n)| * n
    ensures |Divide(lst, n)| > 0 ==> (|Divide(lst, n)| - 1) * n < |lst|
    decreases |lst|
  {
    if |lst| > n {
      var k := |Divide(lst[n..], n)|;
      DivideBounds(lst[n..], n);
      assert |Divide(lst, n)| == k + 1;
      assert (k + 1) * n == k * n + n;
    }
  }

  /** a * n is at least n for a positive factor a. */
  lemma {:induction false} MulAtLeast(a: int, n: int)
    requires a >= 1 && n > 0
    ensures a * n >= n
    decreases a
  {
    if a > 1 {
      MulAtLeast(a - 1, n);
      assert a * n == (a - 1) * n + n;
    }
  }

  /** x / n is the q with q * n <= x < q * n + n. */
  lemma DivUnique(x: int, n: int, q: int)
    requires n > 0 && q * n <= x < q * n + n
    ensures x / n == q
  {
    var d, e := x / n, x % n;
    assert x == d * n + e && 0 <= e < n;
    if d > q {
      assert d * n == (d - q) * n + q * n;
      MulAtLeast(d - q, n);
    } else if d < q {
      assert q * n == (q - d) * n + d * n;
      MulAtLeast(q - d, n);
    }
  }

  /** divide yields ceil(|lst| / n) chunks. */
  lemma DivideCount<T>(lst: seq<T>, n: nat)
    requires n > 0
    ensures |Divide(lst, n)| == (|lst| + n - 1) / n
  {
    var k := |Divide(lst, n)|;
    DivideBounds(lst, n);
    if k > 0 {
      assert (k - 1) * n + n == k * n;
    }
    DivUnique(|lst| + n - 1, n, k);
  }

  /** Chunk `i` is the slice lst[i * n : i * n + n] that the generator yields. */
  lemma DivideSlices<T>(lst: seq<T>, n: nat, i: nat)
    requires n > 0 && i < |Divide(lst, n)|
    ensures i * n < |lst|
    ensures Divide(lst, n)[i] == lst[i * n .. Min(i * n + n, |lst|)]
  {
    DivideSlicesFrom(lst, n, i);
    StartIsProduct(i, n);
  }

  /** Where chunk `i` starts, counted by steps of `n`. */
  function Start(i: nat, n: nat): nat {
    if i == 0 then 0 else Start(i - 1, n) + n
  }

  lemma {:induction false} StartIsProduct(i: nat, n: nat)
    ensures Start(i, n) == i * n
  {
    if i > 0 {
      StartIsProduct(i - 1, n);
      assert i * n == (i - 1) * n + n;
    }
  }

  lemma {:induction false} DivideSlicesFrom<T>(lst: seq<T>, n: nat, i: nat)
    requires n > 0 && i < |Divide(lst, n)|
    ensures Start(i, n) < |lst|
    ensures Divide(lst, n)[i] == lst[Start(i, n) .. Min(Start(i, n) + n, |lst|)]
    decreases |lst|
  {
    if i == 0 {
      assert Start(i, n) == 0;
      if |lst| <= n {
        assert Divide(lst, n) == [lst];
        assert lst[0 .. |lst|] == lst;
      } else {
        assert Divide(lst, n)[0] == lst[..n];
      }
    } else {
      assert |lst| > n;
      var tail := lst[n..];
      assert Divide(lst, n)[i] == Divide(tail, n)[i - 1] by {
        assert Divide(lst, n) == [lst[..n]] + Divide(tail, n);
      }
      DivideSlicesFrom(tail, n, i - 1);
      var a := Start(i - 1, n);
      assert Start(i, n) == a + n;
      assert a < |tail|;
      var b := Min(a + n, |tail|);
      assert n + b == Min(Start(i, n) + n, |lst|);
      SliceOfSuffix(lst, n, a, b);
      assert Divide(lst, n)[i] == tail[a..b];
    }
  }

  /** A slice of a suffix is a slice of the whole, shifted. */
  lemma SliceOfSuffix<T>(s: seq<T>, n: nat, a: nat, b: nat)
    requires n <= |s| && a <= b <= |s| - n
    ensures s[n..][a..b] == s[n + a .. n + b]
  {
  }

  // ---------------------------------------------------------------------------
  // ---------------------------------------------------------------------------
  // create_stocks

  /** {"offer_id": ..., "stock": ...} */
  datatype OzonStock = OzonStock(offerId: string, stock: nat)

  function OzonStocks(levels: seq<Level>): (stocks: seq<OzonStock>)
    ensures |stocks| == |levels|
    ensures forall k :: 0 <= k < |levels| ==> stocks[k] == OzonStock(levels[k].code, levels[k].count)
  {
    seq(|levels|, k requires 0 <= k < |levels| => OzonStock(levels[k].code, levels[k].count))
  }

  /** The records create_stocks returns for a catalogue list. */
  function StocksFor(rows: seq<Row>, ids: seq<string>): (r: Result<seq<OzonStock>>)
    ensures r.Ok? ==> |r.value| == |ids|
  {
    var p := Reconcile(rows, ids);
    if p.levels.Ok? then Ok(OzonStocks(p.levels.value)) else Err(p.levels.error)
  }

  /** Every catalogue identifier is reported as often as it is listed, each
      with the bucketed quantity of the row that consumed it or with 0. */
  lemma StocksForCovers(rows: seq<Row>, ids: seq<string>)
    requires StocksFor(rows, ids).Ok?
    ensures var stocks := StocksFor(rows, ids).value;
            multiset(seq(|stocks|, k requires 0 <= k < |stocks| => stocks[k].offerId)) == multiset(ids)
  {
    ReconcileCovers(rows, ids);
    var stocks := StocksFor(rows, ids).value;
    assert seq(|stocks|, k requires 0 <= k < |stocks| => stocks[k].offerId) == Codes(Reconcile(rows, ids).levels.value);
  }

  /** create_stocks: reports the matched rows in inventory order, then every
      identifier still listed with stock 0, consuming matched identifiers
      from the caller's list. */
  method CreateStocks(rows: seq<Row>, offerIds: IdList) returns (r: Result<seq<OzonStock>>)
    modifies offerIds
    ensures r == StocksFor(rows, old(offerIds.items))
    ensures offerIds.items == Match(rows, old(offerIds.items)).left
  {
    ghost var ids0 := offerIds.items;
    ghost var levels: seq<Level> := [];
    var stocks: seq<OzonStock> := [];
    var i := 0;
    assert rows[0..] == rows;
    PrependNothing(Match(rows, ids0));
    while i < |rows|
      invariant 0 <= i <= |rows|
      invariant stocks == OzonStocks(levels)
      invariant Match(rows, ids0) == Prepend(levels, Match(rows[i..], offerIds.items))
    {
      var watch := rows[i];
      MatchStep(rows, i, offerIds.items);
      if watch.code in offerIds.items {
        var stock := Quantity(watch.quantity);
        if stock.Err? {
          return Err(stock.error);
        }
        stocks := stocks + [OzonStock(watch.code, stock.value)];
        PrependTwice(levels, Level(watch.code, stock.value), Match(rows[i + 1..], RemoveFirst(offerIds.items, watch.code)));
        offerIds.Remove(watch.code);
        levels := levels + [Level(watch.code, stock.value)];
      }
      i := i + 1;
    }
    assert rows[i..] == [];
    assert Match(rows, ids0) == Pass(Ok(levels), offerIds.items) by {
      assert levels + [] == levels;
    }
    ghost var matched := levels;
    var j := 0;
    while j < |offerIds.items|
      invariant 0 <= j <= |offerIds.items|
      invariant stocks == OzonStocks(matched + ZeroLevels(offerIds.items[..j]))
    {
      assert offerIds.items[..j + 1] == offerIds.items[..j] + [offerIds.items[j]];
      assert ZeroLevels(offerIds.items[..j + 1]) == ZeroLevels(offerIds.items[..j]) + [Level(offerIds.items[j], 0)];
      stocks := stocks + [OzonStock(offerIds.items[j], 0)];
      j := j + 1;
    }
    assert offerIds.items[..j] == offerIds.items;
    return Ok(stocks);
  }

  // ---------------------------------------------------------------------------
  // create_prices

  /** {"auto_action_enabled", "currency_code", "offer_id", "old_price", "price"} */
  datatype OzonPrice = OzonPrice(autoActionEnabled: string, currencyCode: string, offerId: string,
                                 oldPrice: string, price: string)

  function PriceOf(row: Row): (p: OzonPrice)
    ensures p.offerId == row.code && AllDigits(p.price)
  {
    OzonPrice("UNKNOWN", "RUB", row.code, "0", PriceConversion(row.price))
  }

  /** The records create_prices returns: one per row whose code is listed, in
      inventory order, priced in roubles with the normalised price. */
  function OzonPrices(rows: seq<Row>, ids: seq<string>): (prices: seq<OzonPrice>)
    ensures |prices| == |Priced(rows, ids)|
    ensures forall k :: 0 <= k < |prices| ==> prices[k] == PriceOf(Priced(rows, ids)[k])
    ensures forall k :: 0 <= k < |prices| ==>
              prices[k].offerId in ids && prices[k].currencyCode == "RUB" && prices[k].oldPrice == "0" &&
              prices[k].autoActionEnabled == "UNKNOWN" && AllDigits(prices[k].price)
    decreases |rows|
  {
    if rows == [] then []
    else
      var init := rows[..|rows| - 1];
      var last := rows[|rows| - 1];
      assert Priced(rows, ids) == Priced(init, ids) + (if CodeIn(ids)(last) then [last] else []);
      OzonPrices(init, ids) + (if last.code in ids then [PriceOf(last)] else [])
  }

  /** create_prices: reads the caller's list and leaves it as it is. */
  method CreatePrices(rows: seq<Row>, offerIds: IdList) returns (prices: seq<OzonPrice>)
    ensures prices == OzonPrices(rows, offerIds.items)
  {
    prices := [];
    var i := 0;
    while i < |rows|
      invariant 0 <= i <= |rows|
      invariant prices == OzonPrices(rows[..i], offerIds.items)
    {
      var watch := rows[i];
      assert rows[..i + 1][..i] == rows[..i];
      if watch.code in offerIds.items {
        prices := prices + [PriceOf(watch)];
      }
      i := i + 1;
    }
    assert rows[..i] == rows;
  }

  // ---------------------------------------------------------------------------
  // get_offer_ids

  datatype OzonItem = OzonItem(offerId: string, productId: int)

  /** One response of the product list: its items, the `last_id` cursor and
      the catalogue's `total`. */
  datatype OzonPage = OzonPage(items: seq<OzonItem>, lastId: string, total: int)

  /** The items of the given pages, in page order. */
  function Items(pages: seq<OzonPage>): seq<OzonItem> {
    if pages == [] then [] else Items(pages[..|pages| - 1]) + pages[|pages| - 1].items
  }

  /** The loop breaks after page `k` when the count so far equals its total. */
  predicate StopsAt(pages: seq<OzonPage>, k: nat)
    requires k < |pages|
  {
    pages[k].total == |Items(pages[..k + 1])|
  }

  /** The first page, from `from` on, after which the loop breaks. */
  function FirstStop(pages: seq<OzonPage>, from: nat): (r: Option<nat>)
    requires from <= |pages|
    ensures r.Some? ==> from <= r.value < |pages| && StopsAt(pages, r.value)
    ensures forall j :: from <= j < |pages| && (r.None? || j < r.value) ==> !StopsAt(pages, j)
    decreases |pages| - from
  {
    if from == |pages| then None
    else if StopsAt(pages, from) then Some(from)
    else FirstStop(pages, from + 1)
  }

  /** The cursor of each request: "" first, then the previous page's last_id. */
  function OzonCursors(pages: seq<OzonPage>): seq<string> {
    seq(|pages|, j requires 0 <= j < |pages| => if j == 0 then "" else pages[j - 1].lastId)
  }

  function OfferIdsOf(items: seq<OzonItem>): seq<string> {
    seq(|items|, j requires 0 <= j < |items| => items[j].offerId)
  }

  /** get_offer_ids over a sequence of responses: the offer_id of every item
      up to the first page whose total equals the count so far. */
  function OzonListing(pages: seq<OzonPage>): (r: Result<Listing>)
    ensures r.Ok? ==> 1 <= |r.value.cursors| <= |pages| && r.value.cursors[0] == ""
    ensures r.Err? ==> r.error == PagesExhausted
  {
    match FirstStop(pages, 0)
    case None => Err(PagesExhausted)
    case Some(k) => Ok(Listing(OfferIdsOf(Items(pages[..k + 1])), OzonCursors(pages[..k + 1])))
  }

  /** What the listing promises: at least one request, the first with cursor
      "" and each later one with the previous page's last_id; it stops at the
      first page whose total equals the number of items so far, and returns
      exactly that many identifiers. */
  lemma OzonListingSpec(pages: seq<OzonPage>)
    requires OzonListing(pages).Ok?
    ensures var l := OzonListing(pages).value;
            var k := |l.cursors| - 1;
            1 <= |l.cursors| <= |pages| && l.cursors[0] == "" &&
            (forall j :: 0 < j <= k ==> l.cursors[j] == pages[j - 1].lastId) &&
            StopsAt(pages, k) && (forall j :: 0 <= j < k ==> !StopsAt(pages, j)) &&
            |l.offerIds| == pages[k].total
  {
  }

  /** The listing fails exactly when no page satisfies the stop condition: in
      the source the loop then keeps requesting pages. */
  lemma OzonListingFails(pages: seq<OzonPage>)
    ensures OzonListing(pages).Err? <==> forall j :: 0 <= j < |pages| ==> !StopsAt(pages, j)
  {
    if OzonListing(pages).Ok? {
      OzonListingSpec(pages);
    }
  }

  /** get_offer_ids: requests pages with the last cursor seen until the item
      count reaches the reported total, then collects each item's offer_id. */
  method GetOfferIds(pages: seq<OzonPage>) returns (r: Result<Listing>)
    ensures r == OzonListing(pages)
  {
    var lastId := "";
    var productList: seq<OzonItem> := [];
    var cursors: seq<string> := [];
    var i := 0;
    var stopped := false;
    while !stopped && i < |pages|
      invariant 0 <= i <= |pages|
      invariant productList == Items(pages[..i])
      invariant |cursors| == i
      invariant forall j :: 0 <= j < i ==> cursors[j] == if j == 0 then "" else pages[j - 1].lastId
      invariant lastId == if i == 0 then "" else pages[i - 1].lastId
      invariant stopped ==> 0 < i && StopsAt(pages, i - 1)
      invariant forall j :: 0 <= j < i && !(stopped && j == i - 1) ==> !StopsAt(pages, j)
      decreases |pages| - i
    {
      var someProd := pages[i];
      cursors := cursors + [lastId];
      productList := productList + someProd.items;
      var total := someProd.total;
      lastId := someProd.lastId;
      assert pages[..i + 1][..i] == pages[..i];
      i := i + 1;
      stopped := total == |productList|;
    }
    if !stopped {
      assert FirstStop(pages, 0) == None;
      return Err(PagesExhausted);
    }
    assert FirstStop(pages, 0) == Some(i - 1);
    var offerIds: seq<string> := [];
    var j := 0;
    while j < |productList|
      invariant 0 <= j <= |productList|
      invariant offerIds == OfferIdsOf(productList[..j])
    {
      assert productList[..j + 1] == productList[..j] + [productList[j]];
      offerIds := offerIds + [productList[j].offerId];
      j := j + 1;
    }
    assert productList[..j] == productList;
    assert cursors == OzonCursors(pages[..i]);
    return Ok(Listing(offerIds, cursors));
  }

  // ---------------------------------------------------------------------------
  // main

  /** The batches main hands to update_stocks and update_price, in order. */
  datatype OzonUploads = OzonUploads(stockBatches: seq<seq<OzonStock>>, priceBatches: seq<seq<OzonPrice>>)

  /** Every stock batch holds 1 to `stockMax` records and every price batch 1
      to `priceMax`. */
  predicate BatchesWithin(u: OzonUploads, stockMax: nat, priceMax: nat) {
    (forall b :: 0 <= b < |u.stockBatches| ==> 0 < |u.stockBatches[b]| <= stockMax) &&
    (forall b :: 0 <= b < |u.priceBatches| ==> 0 < |u.priceBatches[b]| <= priceMax)
  }

  /** main as written: create_prices receives the list create_stocks consumed. */
  function OzonSync(pages: seq<OzonPage>, rows: seq<Row>): (r: Result<OzonUploads>)
    ensures r.Ok? ==> BatchesWithin(r.value, 100, 900)
  {
    match OzonListing(pages)
    case Err(e) => Err(e)
    case Ok(listing) =>
      var ids := listing.offerIds;
      match StocksFor(rows, ids)
      case Err(e) => Err(e)
      case Ok(stocks) =>
        Ok(OzonUploads(Divide(stocks, 100), Divide(OzonPrices(rows, Match(rows, ids).left), 900)))
  }

  /** main: list the catalogue, build the stock records and upload them in
      batches of 100, then build the price records from the same list object
      and upload them in batches of 900. */
  method SyncOzon(pages: seq<OzonPage>, rows: seq<Row>) returns (r: Result<OzonUploads>)
    ensures r == OzonSync(pages, rows)
  {
    var listing := GetOfferIds(pages);
    if listing.Err? {
      return Err(listing.error);
    }
    var offerIds := new IdList(listing.value.offerIds);
    var stocks := CreateStocks(rows, offerIds);
    if stocks.Err? {
      return Err(stocks.error);
    }
    var stockBatches := Divide(stocks.value, 100);
    var prices := CreatePrices(rows, offerIds);
    var priceBatches := Divide(prices, 900);
    return Ok(OzonUploads(stockBatches, priceBatches));
  }

  /** Because the Ozon catalogue lists each offer once, main as written never
      uploads a price: every identifier an inventory row could price was
      consumed by create_stocks. */
  lemma SyncOzonUploadsNoPrices(pages: seq<OzonPage>, rows: seq<Row>)
    requires OzonListing(pages).Ok? && Distinct(OzonListing(pages).value.offerIds)
    requires OzonSync(pages, rows).Ok?
    ensures OzonSync(pages, rows).value.priceBatches == []
  {
    var ids := OzonListing(pages).value.offerIds;
    NothingPricedAfterConsumption(rows, ids);
  }

  /** main with create_stocks given its own copy of the list. */
  function OzonSyncWithCopy(pages: seq<OzonPage>, rows: seq<Row>): (r: Result<OzonUploads>)
    ensures r.Ok? ==> BatchesWithin(r.value, 100, 900)
  {
    match OzonListing(pages)
    case Err(e) => Err(e)
    case Ok(listing) =>
      var ids := listing.offerIds;
      match StocksFor(rows, ids)
      case Err(e) => Err(e)
      case Ok(stocks) => Ok(OzonUploads(Divide(stocks, 100), Divide(OzonPrices(rows, ids), 900)))
  }

  /** main with `create_stocks(watch_remnants, list(offer_ids))`. */
  method SyncOzonWithCopy(pages: seq<OzonPage>, rows: seq<Row>) returns (r: Result<OzonUploads>)
    ensures r == OzonSyncWithCopy(pages, rows)
  {
    var listing := GetOfferIds(pages);
    if listing.Err? {
      return Err(listing.error);
    }
    var offerIds := new IdList(listing.value.offerIds);
    var scratch := new IdList(offerIds.items);
    var stocks := CreateStocks(rows, scratch);
    if stocks.Err? {
      return Err(stocks.error);
    }
    var stockBatches := Divide(stocks.value, 100);
    var prices := CreatePrices(rows, offerIds);
    var priceBatches := Divide(prices, 900);
    return Ok(OzonUploads(stockBatches, priceBatches));
  }

  /** With the copy, every inventory row whose code is in the catalogue gets
      its price uploaded. */
  lemma SyncOzonWithCopyUploadsEveryPrice(pages: seq<OzonPage>, rows: seq<Row>, i: nat)
    requires OzonSyncWithCopy(pages, rows).Ok?
    requires OzonListing(pages).Ok?
    requires i < |rows| && rows[i].code in OzonListing(pages).value.offerIds
    ensures PriceOf(rows[i]) in Flatten(OzonSyncWithCopy(pages, rows).value.priceBatches)
  {
    var ids := OzonListing(pages).value.offerIds;
    var priced := Priced(rows, ids);
    FilterComplete(rows, CodeIn(ids), i);
    var k :| 0 <= k < |priced| && priced[k] == rows[i];
    assert OzonPrices(rows, ids)[k] == PriceOf(rows[i]);
    DivideFlatten(OzonPrices(rows, ids), 900);
  }

  /** The price half of the worked example: rows a1 ("500.00 р.") and a2
      ("100.00 р.") against the full catalogue a1, a2, a3 give one record
      each, in row order, priced "500" and "100". */
  lemma {:induction false} OzonPricesExample(a1: string, a2: string, a3: string, q1: string, q2: string,
                                             d1: string, d2: string, t1: string, t2: string)
    requires AllDigits(d1) && (t1 == [] || t1[0] == '.')
    requires AllDigits(d2) && (t2 == [] || t2[0] == '.')
    ensures OzonPrices([Row(a1, q1, d1 + t1), Row(a2, q2, d2 + t2)], [a1, a2, a3])
         == [OzonPrice("UNKNOWN", "RUB", a1, "0", d1), OzonPrice("UNKNOWN", "RUB", a2, "0", d2)]
  {
    var rows := [Row(a1, q1, d1 + t1), Row(a2, q2, d2 + t2)];
    var ids := [a1, a2, a3];
    PricedBoth(rows[0], rows[1], ids);
    var prices := OzonPrices(rows, ids);
    assert |prices| == 2;
    PriceConversionOfDigits(d1, t1);
    PriceConversionOfDigits(d2, t2);
    assert prices[0] == PriceOf(rows[0]) == OzonPrice("UNKNOWN", "RUB", a1, "0", d1);
    assert prices[1] == PriceOf(rows[1]) == OzonPrice("UNKNOWN", "RUB", a2, "0", d2);
  }

  /** Two rows whose codes are both listed are both priced, in order. */
  lemma PricedBoth(r1: Row, r2: Row, ids: seq<string>)
    requires r1.code in ids && r2.code in ids
    ensures Priced([r1, r2], ids) == [r1, r2]
  {
    assert [r1, r2][..1] == [r1] && [r1][..0] == [];
    assert Priced([r1], ids) == [r1];
  }
}
