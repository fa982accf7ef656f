/** The KuCoin adapter's decision logic (src/utils/KuCoinSource.js). Unlike
    CoinGecko, its fetchPrice writes the cache itself on a network success. */
module KuCoin {
  import opened Wrappers
  import opened Quotes
  import opened SourceCache

  const Name: string := "KuCoin"
  const BaseUrl: string := "https://api.kucoin.com"

  /** `currencyMap`: only BTC and NIM have a market symbol. */
  const Symbols: seq<(string, string)> := [(BTC, "BTC-USDT"), (NIM, "NIM-USDT")]

  /** The level-1 order book endpoint for one market symbol. */
  function TickerUrl(symbol: string): string {
    BaseUrl + "/api/v1/market/orderbook/level1?symbol=" + symbol
  }

  /** The try block of fetchPrice up to the cache write: a non-OK status, an
      undecodable body, a missing `data.data` or a falsy `data.data.price`
      (absent or the empty string) is a failure; otherwise the price is
      parseFloat of the text, whatever number that is ("0" gives 0). */
  function Request(currency: string, reply: Reply, now: int): (r: Result<Quote, Error>)
    ensures r.Success? ==> r.value.timestamp == now && r.value.source == Name
    ensures r.Success? <==>
              && reply.Response? && IsOk(reply.status)
              && reply.body.Some? && reply.body.value.KuCoinLevel1?
              && reply.body.value.data.Some?
              && reply.body.value.data.value.price.Some?
              && reply.body.value.data.value.price.value.text != ""
    ensures r.Success? ==> r.value.price == reply.body.value.data.value.price.value.parsed
    ensures reply.Response? && !IsOk(reply.status) ==> r == Failure(HttpError(reply.status))
  {
    match reply
    case Unreachable => Failure(NetworkError)
    case Response(status, body) =>
      if !IsOk(status) then Failure(HttpError(status))
      else if body.None? then Failure(MalformedJson)
      else match body.value
        case KuCoinLevel1(data) =>
          if data.None? || data.value.price.None? || data.value.price.value.text == ""
          then Failure(InvalidFormat(currency))
          else Success(Quote(data.value.price.value.parsed, now, Name))
        case GeckoPrices(_) => Failure(InvalidFormat(currency))
  }

  /** The network part of fetchPrice for a mapped currency: one GET of the
      symbol's URL. */
  function Attempt(currency: string, symbol: string, net: Network, now: int): Result<Quote, Error> {
    Request(currency, net(TickerUrl(symbol)), now)
  }

  /** fetchPrice with its effect on the source: stablecoins at 1.0 without a
      request; an unmapped currency fails before the try block; a successful
      request is written to the cache (stamping `lastUpdate`) and returned; a
      failed one falls back to the cached entry, writing nothing. */
  function Fetch(s: SourceState, currency: string, net: Network, now: int): (r: (Result<Quote, Error>, SourceState))
    ensures IsStable(currency) ==> r == (Success(Quote(1.0, now, Name)), s)
    ensures !IsStable(currency) && Lookup(Symbols, currency).None? ==> r == (Failure(UnsupportedCurrency(currency)), s)
    ensures !IsStable(currency) && Lookup(Symbols, currency).Some? ==>
              var a := Attempt(currency, Lookup(Symbols, currency).value, net, now);
              && (a.Success? ==> r == (a, Store(s, currency, a.value, now)))
              && (a.Failure? ==> r == (if currency in s.cache then Success(s.cache[currency]) else a, s))
  {
    if IsStable(currency) then (Success(Quote(1.0, now, Name)), s)
    else match Lookup(Symbols, currency)
      case None => (Failure(UnsupportedCurrency(currency)), s)
      case Some(symbol) =>
        var a := Attempt(currency, symbol, net, now);
        if a.Success? then (a, Store(s, currency, a.value, now))
        else if currency in s.cache then (Success(s.cache[currency]), s)
        else (a, s)
  }

  /** Only BTC and NIM are mapped; USDC, USDT and every other currency are not. */
  lemma MappedSymbols(currency: string)
    ensures Lookup(Symbols, BTC) == Some("BTC-USDT") && Lookup(Symbols, NIM) == Some("NIM-USDT")
    ensures Lookup(Symbols, currency).Some? <==> currency == BTC || currency == NIM
  {
    LookupFirst(Symbols, NIM, 1);
  }

  /** A failed fetch leaves the source exactly as it was; a successful one
      only adds or replaces the currency's own entry. */
  lemma FetchWritesOnlyOnSuccess(s: SourceState, currency: string, net: Network, now: int)
    ensures var r := Fetch(s, currency, net, now);
            && (r.0.Failure? ==> r.1 == s)
            && r.1.provider == s.provider
            && (forall c :: c != currency ==> (c in r.1.cache <==> c in s.cache))
            && (forall c :: c != currency && c in s.cache ==> r.1.cache[c] == s.cache[c])
  {
  }
}
