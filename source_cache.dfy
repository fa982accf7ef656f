/** The state every price source keeps (src/utils/PriceSource.js): its
    per-currency cache, and ONE `lastUpdate` time stamp shared by all the
    currencies it caches, with a five-minute time-to-live. */
module SourceCache {
  import opened Wrappers
  import opened Quotes

  /** CACHE_DURATION: five minutes in milliseconds. */
  const CacheDuration: int := 5 * 60 * 1000

  /** The concrete kind of a source: the base class (constructed with any
      name) or one of the two adapters. */
  datatype Provider = Base(baseName: string) | CoinGecko | KuCoin

  /** The `name` the constructor gives the source. */
  function Name(p: Provider): string {
    match p
    case Base(baseName) => baseName
    case CoinGecko => "CoinGecko"
    case KuCoin => "KuCoin"
  }

  datatype SourceState = SourceState(provider: Provider, cache: map<string, Quote>, lastUpdate: Option<int>)

  /** A newly constructed source: empty cache, `lastUpdate` null. */
  function Initial(p: Provider): SourceState {
    SourceState(p, map[], None)
  }

  /** `isCacheValid`: the currency has an entry, `lastUpdate` is truthy (set,
      and not 0) and less than CacheDuration has elapsed since it. */
  predicate CacheValid(s: SourceState, currency: string, now: int) {
    && currency in s.cache
    && s.lastUpdate.Some?
    && s.lastUpdate.value != 0
    && now - s.lastUpdate.value < CacheDuration
  }

  /** `updateCache`: writes one entry and stamps the whole source with `now`. */
  function Store(s: SourceState, currency: string, q: Quote, now: int): (t: SourceState)
    ensures t.provider == s.provider && t.lastUpdate == Some(now)
    ensures currency in t.cache && t.cache[currency] == q
    ensures forall c :: c != currency ==> (c in t.cache <==> c in s.cache)
    ensures forall c :: c != currency && c in s.cache ==> t.cache[c] == s.cache[c]
  {
    s.(cache := s.cache[currency := q], lastUpdate := Some(now))
  }

  /** A new source never answers from its cache. */
  lemma NewSourceNeverValid(p: Provider, currency: string, now: int)
    ensures !CacheValid(Initial(p), currency, now)
  {
  }

  /** The clock is shared: writing one currency makes ANY other entry of the
      same source count as fresh for the next five minutes, however old that
      entry is. */
  lemma SharedClock(s: SourceState, written: string, q: Quote, now: int, other: string, later: int)
    requires other in s.cache && now != 0
    requires now <= later < now + CacheDuration
    ensures CacheValid(Store(s, written, q, now), other, later)
  {
  }

  /** Validity is decided by the time stamp alone: an entry is valid exactly
      when the source was last written less than five minutes ago, whatever
      the age of the entry itself. */
  lemma ValidityIgnoresEntryAge(s: SourceState, a: string, b: string, now: int)
    requires a in s.cache && b in s.cache
    ensures CacheValid(s, a, now) <==> CacheValid(s, b, now)
  {
  }
}
