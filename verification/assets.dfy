/** The class `Asset` of asset.py: a validated ticker that owns one price series, with
    an optional sector and a currency. */
module Assets {
  import opened Results
  import opened Text
  import PriceSeries

  /** `CurrencyEnum`: the four supported currencies. */
  datatype Currency = USD | EUR | GBP | JPY

  datatype Asset = Asset(
    ticker: string,
    prices: PriceSeries.Series,
    sector: Option<string>,
    currency: Currency)

  /** What construction guarantees: a non-blank upper-case ticker and at least one price. */
  predicate Valid(a: Asset) {
    && !IsBlank(a.ticker)
    && (forall i :: 0 <= i < |a.ticker| ==> !IsLower(a.ticker[i]))
    && PriceSeries.Length(a.prices) >= 1
  }

  /** `Asset(ticker, prices, sector, currency)`. The ticker is checked first: an empty
      or whitespace-only ticker fails even when the series is empty too. */
  function NewAsset(ticker: string, prices: PriceSeries.Series, sector: Option<string> := None, currency: Currency := USD): (r: Result<Asset>)
    ensures IsBlank(ticker) ==> r == Err(EmptyTicker)
    ensures !IsBlank(ticker) && PriceSeries.Length(prices) == 0 ==> r == Err(EmptyPrices)
    ensures r.Ok? <==> !IsBlank(ticker) && PriceSeries.Length(prices) > 0
    ensures r.Ok? ==> Valid(r.value)
    ensures r.Ok? ==> r.value.ticker == Upper(ticker)
    ensures r.Ok? ==> r.value.prices == prices && r.value.sector == sector && r.value.currency == currency
  {
    StripEmptyIff(ticker);
    if |ticker| == 0 || |Strip(ticker)| == 0 then Err(EmptyTicker)
    else if PriceSeries.Length(prices) == 0 then Err(EmptyPrices)
    else
      UpperKeepsBlank(ticker);
      Ok(Asset(Upper(ticker), prices, sector, currency))
  }

  /** The `current_price` property: the last price. Construction guarantees there is one. */
  function CurrentPrice(a: Asset): (p: real)
    requires Valid(a)
    ensures p in a.prices.values
    ensures PriceSeries.Length(a.prices) == 1 ==> p == a.prices.values[0]
    ensures PriceSeries.TotalReturn(a.prices).Ok? && PriceSeries.Length(a.prices) >= 2 ==>
      p == a.prices.values[0] * (1.0 + PriceSeries.TotalReturn(a.prices).value)
  {
    a.prices.values[|a.prices.values| - 1]
  }

  /** The `total_return` property: the owned series' total return, so the current price
      is the first price grown by it. */
  function TotalReturn(a: Asset): (r: Result<real>)
    requires Valid(a)
    ensures r == PriceSeries.TotalReturn(a.prices)
    ensures r.Ok? && PriceSeries.Length(a.prices) >= 2 ==> CurrentPrice(a) == a.prices.values[0] * (1.0 + r.value)
    ensures PriceSeries.Length(a.prices) == 1 ==> r == Ok(0.0)
  {
    PriceSeries.TotalReturn(a.prices)
  }

  /** A constructed asset's current price is the last price it was given. */
  lemma CurrentPriceOfNewAsset(ticker: string, values: seq<real>, name: string, sector: Option<string>, currency: Currency)
    requires !IsBlank(ticker) && |values| > 0
    ensures NewAsset(ticker, PriceSeries.Make(values, name), sector, currency).Ok?
    ensures CurrentPrice(NewAsset(ticker, PriceSeries.Make(values, name), sector, currency).value) == values[|values| - 1]
  {
    var prices := PriceSeries.Make(values, name);
    assert prices.values == values;
    var a := NewAsset(ticker, prices, sector, currency);
    assert a.Ok? && a.value.prices == prices;
  }

  /** Normalising an already normalised ticker changes nothing: constructing an asset
      from a constructed asset's fields gives the same asset back. */
  lemma NewAssetIdempotent(a: Asset)
    requires Valid(a)
    ensures NewAsset(a.ticker, a.prices, a.sector, a.currency) == Ok(a)
  {
    assert Upper(a.ticker) == a.ticker;
  }

  /** A ticker made only of blanks is rejected, however long. */
  lemma BlankTickersRejected(prices: PriceSeries.Series)
    ensures NewAsset("", prices) == Err(EmptyTicker)
    ensures NewAsset("   ", prices) == Err(EmptyTicker)
    ensures NewAsset("AAPL", PriceSeries.Make([])) == Err(EmptyPrices)
  {
    assert IsSpace(' ');
    assert "AAPL"[0] == 'A' && !IsSpace('A');
  }
}
