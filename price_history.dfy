/** The per-coin price-history cache behind the detail chart: a click on a
    coin fetches its 7-day history only when the cache has no entry for the
    coin's id, and a successful reply is turned into chart points and merged
    into the cache under that id. */
module PriceHistory {
  import opened Market

  /** One `[timestamp, price]` pair of a history reply. */
  datatype PricePoint = PricePoint(timestamp: int, price: real)

  /** One point of the chart: the date label of the timestamp and the price. */
  datatype ChartPoint = ChartPoint(time: string, price: real)

  /** The history fetch a click issues: the coin and the currency selected at that moment. */
  datatype HistoryRequest = HistoryRequest(coinId: CoinId, currency: string)

  type History = map<CoinId, seq<ChartPoint>>

  /** `data.prices.map(...)`; the locale-dependent date formatting is the parameter `dateLabel`. */
  function FormatSeries(prices: seq<PricePoint>, dateLabel: int -> string): seq<ChartPoint>
    decreases |prices|
  {
    if prices == [] then []
    else [ChartPoint(dateLabel(prices[0].timestamp), prices[0].price)] + FormatSeries(prices[1..], dateLabel)
  }

  /** The series has one point per reply pair, in the reply's order. */
  lemma {:induction false} FormatSeriesPointwise(prices: seq<PricePoint>, dateLabel: int -> string)
    ensures |FormatSeries(prices, dateLabel)| == |prices|
    ensures forall i :: 0 <= i < |prices| ==>
              FormatSeries(prices, dateLabel)[i] == ChartPoint(dateLabel(prices[i].timestamp), prices[i].price)
    decreases |prices|
  {
    if prices != [] {
      FormatSeriesPointwise(prices[1..], dateLabel);
    }
  }

  /** Formatting works point by point, so it commutes with concatenation. */
  lemma {:induction false} FormatSeriesAppend(a: seq<PricePoint>, b: seq<PricePoint>, dateLabel: int -> string)
    ensures FormatSeries(a + b, dateLabel) == FormatSeries(a, dateLabel) + FormatSeries(b, dateLabel)
    decreases |a|
  {
    if a == [] {
      assert a + b == b;
    } else {
      FormatSeriesAppend(a[1..], b, dateLabel);
      assert (a + b)[1..] == a[1..] + b;
    }
  }

  /** `{ ...prev, [coinId]: formattedData }`. */
  function Merge(prev: History, coinId: CoinId, series: seq<ChartPoint>): History {
    prev[coinId := series]
  }

  /** A merge sets the one key and leaves every other entry as it was. */
  lemma MergeSetsOnlyKey(prev: History, coinId: CoinId, series: seq<ChartPoint>)
    ensures Merge(prev, coinId, series).Keys == prev.Keys + {coinId}
    ensures Merge(prev, coinId, series)[coinId] == series
    ensures forall k :: k in prev && k != coinId ==> Merge(prev, coinId, series)[k] == prev[k]
  {
  }

  /** `!priceHistory[coin.id]`: a stored series is an array, which is truthy even
      when empty, so for an id the map stores the test holds only when the map has
      no entry for it. Ids that name members the cache object inherits (such as
      "constructor") are outside this model. */
  predicate NeedsFetch(history: History, coinId: CoinId) {
    coinId !in history
  }

  /** Once an id has an entry, no later merge makes it fetchable again. */
  lemma MergeKeepsCached(prev: History, coinId: CoinId, series: seq<ChartPoint>, other: CoinId)
    ensures !NeedsFetch(Merge(prev, coinId, series), coinId)
    ensures NeedsFetch(Merge(prev, coinId, series), other) <==> other != coinId && NeedsFetch(prev, other)
  {
  }

  class PriceHistoryCache {
    /** The `priceHistory` state: chart series by coin id. */
    var history: History
    /** The coin whose detail panel is open. */
    var selected: Option<Coin>
    /** The `selectedCurrency` state. */
    var currency: string
    /** The history fetches issued so far, oldest first. */
    var requests: seq<HistoryRequest>

    constructor (currency: string)
      ensures history == map[] && selected == None && requests == []
      ensures this.currency == currency
    {
      history := map[];
      selected := None;
      this.currency := currency;
      requests := [];
    }

    /** Switching the currency keeps every cached series. */
    method SelectCurrency(code: string)
      modifies this`currency
      ensures currency == code
    {
      currency := code;
    }

    /** `handleCoinClick`: open the coin's panel, and fetch its history only if
        the cache has no entry for its id. */
    method HandleCoinClick(coin: Coin) returns (fetch: bool)
      modifies this`selected, this`requests
      ensures selected == Some(coin)
      ensures fetch <==> NeedsFetch(history, coin.id)
      ensures requests == old(requests) + if fetch then [HistoryRequest(coin.id, currency)] else []
    {
      selected := Some(coin);
      fetch := !(coin.id in history);
      if fetch {
        requests := requests + [HistoryRequest(coin.id, currency)];
      }
    }

    /** The end of `fetchPriceHistory`: a reply with a price list is formatted
        and merged under the requested id; a failed fetch (`None`) changes nothing. */
    method ReceiveHistory(request: HistoryRequest, reply: Option<seq<PricePoint>>, dateLabel: int -> string)
      modifies this`history
      ensures reply.None? ==> history == old(history)
      ensures reply.Some? ==> history == Merge(old(history), request.coinId, FormatSeries(reply.value, dateLabel))
    {
      match reply {
        case None =>
        case Some(prices) =>
          var series := FormatSeries(prices, dateLabel);
          history := Merge(history, request.coinId, series);
      }
    }
  }

  /** A click, a successful reply and a second click issue exactly one fetch;
      after a currency switch the cached series is still served, with no new fetch. */
  method FetchOnce(coin: Coin, prices: seq<PricePoint>, dateLabel: int -> string)
    returns (first: bool, second: bool, afterSwitch: bool, issued: seq<HistoryRequest>, shown: Option<seq<ChartPoint>>)
    ensures first && !second && !afterSwitch
    ensures issued == [HistoryRequest(coin.id, "usd")]
    ensures shown == Some(FormatSeries(prices, dateLabel))
  {
    var cache := new PriceHistoryCache("usd");
    first := cache.HandleCoinClick(coin);
    cache.ReceiveHistory(cache.requests[0], Some(prices), dateLabel);
    second := cache.HandleCoinClick(coin);
    cache.SelectCurrency("eur");
    afterSwitch := cache.HandleCoinClick(coin);
    issued := cache.requests;
    shown := if coin.id in cache.history then Some(cache.history[coin.id]) else None;
  }

  /** Two clicks before the first reply arrives issue two identical fetches:
      there is no table of fetches in flight. */
  method ClickTwiceBeforeReply(coin: Coin) returns (issued: seq<HistoryRequest>)
    ensures issued == [HistoryRequest(coin.id, "usd"), HistoryRequest(coin.id, "usd")]
  {
    var cache := new PriceHistoryCache("usd");
    var first := cache.HandleCoinClick(coin);
    var second := cache.HandleCoinClick(coin);
    issued := cache.requests;
  }
}
