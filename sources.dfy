/** The price-source contract (src/utils/PriceSource.js): getPrice serves a
    valid cache entry, or calls the provider's fetchPrice and stores what it
    returns. Dispatch over the two adapters and the base class is a closed set
    of variants. */
module Sources {
  import opened Wrappers
  import opened Quotes
  import opened SourceCache
  import CoinGecko
  import KuCoin

  /** `currencyMap` of each adapter; the base class has none. */
  function CurrencyMap(p: Provider): seq<(string, string)> {
    match p
    case Base(_) => []
    case CoinGecko => CoinGecko.Ids
    case KuCoin => KuCoin.Symbols
  }

  /** fetchPrice of each kind of source, with its effect on the source. */
  function FetchOutcome(s: SourceState, currency: string, net: Network, now: int): (r: (Result<Quote, Error>, SourceState))
    ensures r.1.provider == s.provider
    ensures r.0.Failure? ==> r.1 == s
    ensures r.1 == s || (r.0.Success? && r.1 == Store(s, currency, r.0.value, now))
    ensures s.provider.Base? ==> r.0 == Failure(NotImplemented)
  {
    match s.provider
    case Base(_) => (Failure(NotImplemented), s)
    case CoinGecko => (CoinGecko.Fetch(s.cache, currency, net, now), s)
    case KuCoin => KuCoin.Fetch(s, currency, net, now)
  }

  /** getPrice: a valid cache entry is returned with no fetch; otherwise the
      result of fetchPrice is returned and, on success, stored with
      `lastUpdate` = now. A failure propagates and changes nothing. */
  function GetPriceOutcome(s: SourceState, currency: string, net: Network, now: int): (r: (Result<Quote, Error>, SourceState))
    ensures r.1.provider == s.provider
    ensures CacheValid(s, currency, now) ==> r == (Success(s.cache[currency]), s)
    ensures !CacheValid(s, currency, now) ==> r.0 == FetchOutcome(s, currency, net, now).0
    ensures !CacheValid(s, currency, now) && r.0.Success? ==> r.1.lastUpdate == Some(now)
    ensures r.0.Failure? ==> r.1 == s
    ensures r.0.Success? ==> currency in r.1.cache && r.1.cache[currency] == r.0.value
    ensures r.0.Success? ==> r.1.cache == s.cache[currency := r.0.value]
    ensures s.cache.Keys <= r.1.cache.Keys
    ensures forall c :: c != currency && c in s.cache ==> r.1.cache[c] == s.cache[c]
  {
    if CacheValid(s, currency, now) then (Success(s.cache[currency]), s)
    else
      var fetched := FetchOutcome(s, currency, net, now);
      if fetched.0.Success? then (fetched.0, Store(fetched.1, currency, fetched.0.value, now))
      else fetched
  }

  /** One step of a polling tick: stablecoins are skipped; otherwise fetchPrice
      is called and, on success, its result stored; a failure is swallowed. */
  function PollStep(s: SourceState, currency: string, net: Network, now: int): (t: SourceState)
    ensures t.provider == s.provider
  {
    if IsStable(currency) then s
    else
      var fetched := FetchOutcome(s, currency, net, now);
      if fetched.0.Success? then Store(fetched.1, currency, fetched.0.value, now) else fetched.1
  }

  /** One tick of initializePolling: a PollStep for every key of the map, in order. */
  function PollOutcome(s: SourceState, keys: seq<string>, net: Network, now: int): (t: SourceState)
    ensures t.provider == s.provider
    decreases |keys|
  {
    if |keys| == 0 then s else PollOutcome(PollStep(s, keys[0], net, now), keys[1..], net, now)
  }

  /** The network part of an adapter's fetchPrice for a mapped, non-stable currency. */
  function Attempt(p: Provider, currency: string, symbol: string, net: Network, now: int): Result<Quote, Error> {
    match p
    case Base(_) => Failure(NotImplemented)
    case CoinGecko => CoinGecko.Attempt(currency, symbol, net, now)
    case KuCoin => KuCoin.Attempt(currency, symbol, net, now)
  }

  /** Both adapters fetch the same way for a mapped currency: the network
      result when it succeeds, else the cached entry, else the failure. */
  lemma AdapterFetch(s: SourceState, currency: string, net: Network, now: int)
    requires !s.provider.Base? && !IsStable(currency)
    requires Lookup(CurrencyMap(s.provider), currency).Some?
    ensures var a := Attempt(s.provider, currency, Lookup(CurrencyMap(s.provider), currency).value, net, now);
            var r := FetchOutcome(s, currency, net, now);
            r.0 == if a.Success? then a else if currency in s.cache then Success(s.cache[currency]) else a
  {
  }

  /** The base fetchPrice always fails, so a base source only ever answers
      from a valid cache. */
  lemma BaseFetchFails(s: SourceState, currency: string, net: Network, now: int)
    requires s.provider.Base?
    ensures var r := GetPriceOutcome(s, currency, net, now);
            r.0.Success? <==> CacheValid(s, currency, now)
  {
  }

  /** When CoinGecko's request fails and its entry is stale, getPrice hands
      back the stale entry and re-stores it with `lastUpdate` = now, so the
      stale entry (and every other entry) is served from cache, without a
      request, for the next five minutes. */
  lemma {:induction false} StaleFallbackRestamped(s: SourceState, currency: string, net: Network, now: int, other: string, later: int)
    requires s.provider == CoinGecko && !IsStable(currency) && Lookup(CoinGecko.Ids, currency).Some?
    requires CoinGecko.Attempt(currency, Lookup(CoinGecko.Ids, currency).value, net, now).Failure?
    requires currency in s.cache && !CacheValid(s, currency, now)
    requires other in s.cache && now != 0 && now <= later < now + CacheDuration
    ensures var r := GetPriceOutcome(s, currency, net, now);
            r.0 == Success(s.cache[currency]) && CacheValid(r.1, other, later)
  {
    var r := GetPriceOutcome(s, currency, net, now);
    assert r.1 == Store(s, currency, s.cache[currency], now);
    SharedClock(s, currency, s.cache[currency], now, other, later);
  }

  /** No duplicates in a list of currencies. */
  predicate Distinct(keys: seq<string>) {
    forall i, j :: 0 <= i < j < |keys| ==> keys[i] != keys[j]
  }

  /** A polling tick gives every mapped non-stable currency of the list its
      own chance: its entry ends up as the fresh network price when that
      request succeeds, and otherwise stays what it was, whatever happened to
      the other currencies. Currencies outside the list keep their entries. */
  lemma {:induction false} PollEntry(s: SourceState, keys: seq<string>, net: Network, now: int, c: string)
    requires !s.provider.Base? && Distinct(keys)
    requires forall k :: 0 <= k < |keys| ==> Lookup(CurrencyMap(s.provider), keys[k]).Some?
    ensures var t := PollOutcome(s, keys, net, now);
            && (c !in keys || IsStable(c) ==> (c in t.cache <==> c in s.cache) && (c in s.cache ==> t.cache[c] == s.cache[c]))
            && (c in keys && !IsStable(c) ==>
                  var a := Attempt(s.provider, c, Lookup(CurrencyMap(s.provider), c).value, net, now);
                  && (a.Success? ==> c in t.cache && t.cache[c] == a.value)
                  && (a.Failure? ==> (c in t.cache <==> c in s.cache) && (c in s.cache ==> t.cache[c] == s.cache[c])))
    decreases |keys|
  {
    if |keys| > 0 {
      var s' := PollStep(s, keys[0], net, now);
      assert Distinct(keys[1..]);
      assert forall k :: 0 <= k < |keys[1..]| ==> keys[1..][k] == keys[k + 1];
      PollEntry(s', keys[1..], net, now, c);
      if !IsStable(keys[0]) {
        AdapterFetch(s, keys[0], net, now);
      }
      if c == keys[0] {
        assert c !in keys[1..];
      } else {
        assert c in keys <==> c in keys[1..];
      }
    }
  }

  /** A source: its provider kind, its cache and its shared `lastUpdate`. */
  class PriceSource {
    const provider: Provider
    var cache: map<string, Quote>
    var lastUpdate: Option<int>

    /** The source's state as a value. */
    function State(): SourceState
      reads this
    {
      SourceState(provider, cache, lastUpdate)
    }

    constructor (p: Provider)
      ensures State() == Initial(p)
    {
      provider := p;
      cache := map[];
      lastUpdate := None;
    }

    /** `updateCache`: only the given entry and `lastUpdate` change. */
    method UpdateCache(currency: string, q: Quote, now: int)
      modifies this
      ensures State() == Store(old(State()), currency, q, now)
      ensures forall c :: c != currency && c in old(cache) ==> c in cache && cache[c] == old(cache)[c]
    {
      cache := cache[currency := q];
      lastUpdate := Some(now);
    }

    /** `fetchPrice` of this source's kind. */
    method FetchPrice(currency: string, net: Network, now: int) returns (r: Result<Quote, Error>)
      modifies this
      ensures (r, State()) == FetchOutcome(old(State()), currency, net, now)
    {
      match provider
      case Base(_) =>
        r := Failure(NotImplemented);
      case CoinGecko =>
        r := CoinGecko.Fetch(cache, currency, net, now);
      case KuCoin =>
        if IsStable(currency) {
          r := Success(Quote(1.0, now, KuCoin.Name));
          return;
        }
        var symbol := Lookup(KuCoin.Symbols, currency);
        if symbol.None? {
          r := Failure(UnsupportedCurrency(currency));
          return;
        }
        r := KuCoin.Attempt(currency, symbol.value, net, now);
        if r.Success? {
          UpdateCache(currency, r.value, now);
        } else if currency in cache {
          r := Success(cache[currency]);
        }
    }

    /** `getPrice`. */
    method GetPrice(currency: string, net: Network, now: int) returns (r: Result<Quote, Error>)
      modifies this
      ensures (r, State()) == GetPriceOutcome(old(State()), currency, net, now)
    {
      if CacheValid(State(), currency, now) {
        r := Success(cache[currency]);
        return;
      }
      r := FetchPrice(currency, net, now);
      if r.Success? {
        UpdateCache(currency, r.value, now);
      }
    }

    /** One tick of `initializePolling` (the adapters only): every key of the
        currency map, stablecoins skipped, each failure swallowed. */
    method PollTick(net: Network, now: int)
      requires !provider.Base?
      modifies this
      ensures State() == PollOutcome(old(State()), Keys(CurrencyMap(provider)), net, now)
    {
      var keys := Keys(CurrencyMap(provider));
      for i := 0 to |keys|
        invariant PollOutcome(old(State()), keys, net, now) == PollOutcome(State(), keys[i..], net, now)
      {
        assert keys[i..][1..] == keys[i + 1..];
        var currency := keys[i];
        if !IsStable(currency) {
          var r := FetchPrice(currency, net, now);
          if r.Success? {
            UpdateCache(currency, r.value, now);
          }
        }
      }
      assert keys[|keys|..] == [];
    }
  }
}
