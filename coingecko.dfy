/** The CoinGecko adapter's decision logic (src/utils/CoinGeckoSource.js).
    Its fetchPrice writes nothing: it answers from the network, or from its own
    cache when the network part fails. */
module CoinGecko {
  import opened Wrappers
  import opened Quotes

  const Name: string := "CoinGecko"
  const BaseUrl: string := "https://api.coingecko.com/api/v3"

  /** `currencyMap`: internal currency to CoinGecko coin id. */
  const Ids: seq<(string, string)> := [(BTC, "bitcoin"), (NIM, "nimiq"), (USDC, "usd-coin"), (USDT, "tether")]

  /** The simple-price endpoint for one coin id. */
  function PriceUrl(coinId: string): string {
    BaseUrl + "/simple/price?ids=" + coinId + "&vs_currencies=usd"
  }

  /** The try block of fetchPrice, given the reply to its request: a non-OK
      status, an undecodable body, a missing `data[coinId]` or a falsy `usd`
      (absent or 0) is a failure; otherwise `usd` is the price. */
  function Request(currency: string, coinId: string, reply: Reply, now: int): (r: Result<Quote, Error>)
    ensures r.Success? ==>
              && reply.Response? && reply.body.Some? && reply.body.value.GeckoPrices?
              && coinId in reply.body.value.coins && reply.body.value.coins[coinId].usd.Some?
              && r.value == Quote(reply.body.value.coins[coinId].usd.value, now, Name) && r.value.price != 0.0
    ensures r.Success? <==>
              && reply.Response? && IsOk(reply.status)
              && reply.body.Some? && reply.body.value.GeckoPrices?
              && coinId in reply.body.value.coins
              && reply.body.value.coins[coinId].usd.Some?
              && reply.body.value.coins[coinId].usd.value != 0.0
    ensures reply.Response? && !IsOk(reply.status) ==> r == Failure(HttpError(reply.status))
  {
    match reply
    case Unreachable => Failure(NetworkError)
    case Response(status, body) =>
      if !IsOk(status) then Failure(HttpError(status))
      else if body.None? then Failure(MalformedJson)
      else match body.value
        case GeckoPrices(coins) =>
          if coinId in coins && coins[coinId].usd.Some? && coins[coinId].usd.value != 0.0
          then Success(Quote(coins[coinId].usd.value, now, Name))
          else Failure(InvalidFormat(currency))
        case KuCoinLevel1(_) => Failure(InvalidFormat(currency))
  }

  /** The network part of fetchPrice for a mapped currency: one GET of the
      mapped id's URL. */
  function Attempt(currency: string, coinId: string, net: Network, now: int): Result<Quote, Error> {
    Request(currency, coinId, net(PriceUrl(coinId)), now)
  }

  /** fetchPrice: stablecoins at 1.0 without a request; an unmapped currency
      fails before the try block, so without a cache fallback; a failed
      request falls back to this adapter's cached entry when there is one. */
  function Fetch(cache: map<string, Quote>, currency: string, net: Network, now: int): (r: Result<Quote, Error>)
    ensures IsStable(currency) ==> r == Success(Quote(1.0, now, Name))
    ensures !IsStable(currency) && Lookup(Ids, currency).None? ==> r == Failure(UnsupportedCurrency(currency))
    ensures !IsStable(currency) && Lookup(Ids, currency).Some? ==>
              var a := Attempt(currency, Lookup(Ids, currency).value, net, now);
              r == if a.Success? then a else if currency in cache then Success(cache[currency]) else a
  {
    if IsStable(currency) then Success(Quote(1.0, now, Name))
    else match Lookup(Ids, currency)
      case None => Failure(UnsupportedCurrency(currency))
      case Some(coinId) =>
        var a := Attempt(currency, coinId, net, now);
        if a.Success? then a
        else if currency in cache then Success(cache[currency])
        else a
  }

  /** The request for BTC asks for "bitcoin", the one for NIM for "nimiq". */
  lemma MappedIds()
    ensures Lookup(Ids, BTC) == Some("bitcoin") && Lookup(Ids, NIM) == Some("nimiq")
    ensures Lookup(Ids, USDC) == Some("usd-coin") && Lookup(Ids, USDT) == Some("tether")
  {
    LookupFirst(Ids, USDC, 2);
    LookupFirst(Ids, USDT, 3);
  }

  /** Stablecoins never touch the network: the answer is the same whatever
      the network would have replied. */
  lemma StablecoinsIgnoreNetwork(cache: map<string, Quote>, currency: string, net1: Network, net2: Network, now: int)
    requires IsStable(currency)
    ensures Fetch(cache, currency, net1, now) == Fetch(cache, currency, net2, now)
  {
  }

  /** Only the reply to the mapped id's URL matters. */
  lemma OnlyMappedUrlMatters(cache: map<string, Quote>, currency: string, net1: Network, net2: Network, now: int)
    requires Lookup(Ids, currency).Some?
    requires net1(PriceUrl(Lookup(Ids, currency).value)) == net2(PriceUrl(Lookup(Ids, currency).value))
    ensures Fetch(cache, currency, net1, now) == Fetch(cache, currency, net2, now)
  {
  }

  /** A fresh (network) price is never 0, since `usd` must be truthy; a
      failure happens only when the currency has no cached entry. */
  lemma FetchedPriceNonzero(cache: map<string, Quote>, currency: string, net: Network, now: int)
    requires !IsStable(currency)
    ensures var r := Fetch(cache, currency, net, now);
            r.Success? && currency !in cache ==> r.value.price != 0.0 && r.value.timestamp == now
    ensures var r := Fetch(cache, currency, net, now);
            r.Failure? ==> currency !in cache || Lookup(Ids, currency).None?
  {
  }
}
