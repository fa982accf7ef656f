# gateflo.io price aggregation and payment handlers, in Dafny

This project models the price subsystem of the gateflo.io payment widget
and the two payment handlers' string logic, and proves properties of them.

- **Price sources** (`src/utils/PriceSource.js`, `CoinGeckoSource.js`,
  `KuCoinSource.js`). Each source keeps a per-currency cache with one
  source-wide `lastUpdate` stamp and a five-minute time-to-live. The two
  adapters short-circuit the stablecoins, map currencies to provider ids,
  accept or reject a reply by its shape, and fall back to their own cache.
  KuCoin also writes its cache inside `fetchPrice`. `PriceSource` is a
  class whose methods change `cache` and `lastUpdate` in place. Each
  method is proved against a function on the source's state
  (`SourceCache`, `Sources`).
- **The aggregator** (`src/utils/PriceManager.js`). It keeps an ordered
  list of sources, a failure counter per source name with threshold 3,
  fresh-cache arbitration across all sources, a last-resort scan of stale
  caches, and subscribers notified in insertion order. The meaning of one
  `getPrice` is a pure walk over the sources' states (`Aggregator.Resolve`,
  `Walk`, `TurnAt`, `Settle`, `FailOver`, `Exhausted`). The class
  `Aggregator.PriceManager` runs the same loop over the source objects and
  is proved to end in exactly the state and result the walk describes.
  `getAllPrices`, `getPriceAge`, `needsUpdate`, `subscribe` and
  `notifySubscribers` are methods with loops, each proved against a
  function. The properties of the walk are lemmas in `AggregatorLemmas`.
- **The Bitcoin handler** (`src/handlers/BtcHandler.js`). It has the
  address regular expression as a predicate and the BIP 21 `bitcoin:` URI
  builder. The URI's query is written by the
  application/x-www-form-urlencoded serializer of the WHATWG URL Standard
  (`FormUrlEncoded`), which `URLSearchParams` uses. A strict parser is
  given beside it, and the URI is proved to read back as the address and
  the parameters that were added.
- **The Polygon handler** (`src/handlers/PolygonHandler.js`). It has the
  construction checks, `TOKEN_CONTRACTS`, the amount check of
  `createPayment`, and the conversion of a dollar amount into the token's
  smallest unit: `toFixed(2)`, split at '.', the fraction padded to 6
  digits. It also has the exact text match that `monitorAddress` uses.
  `toFixed` is modelled on the exact value of the number (`Decimal`,
  `Polygon.Cents`).

The network is a function from request URL to reply (`Quotes.Network`),
and `Date.now()` is a parameter `now`. Prices are `real`. Subscriber
callbacks are identities; their only observable effect is the log of
invocations, including whether one threw.

## Model

| member | source | states |
|---|---|---|
| SourceCache.Store | src/utils/PriceSource.js:25-28 | `updateCache` writes the one entry and sets `lastUpdate` to now; every other entry is kept and the provider is unchanged |
| SourceCache.NewSourceNeverValid | src/utils/PriceSource.js:3-8 | a newly built source (`lastUpdate` null) never serves from its cache |
| SourceCache.SharedClock | src/utils/PriceSource.js:19-28 | writing any currency makes every other cached entry count as fresh for the next five minutes, however old it is |
| SourceCache.ValidityIgnoresEntryAge | src/utils/PriceSource.js:19-23 | two cached currencies of one source are always both fresh or both stale |
| Sources.FetchOutcome | src/utils/PriceSource.js:31-33 | fetchPrice of each kind of source: it keeps the provider; a failure changes nothing; a success changes nothing or stores exactly the answer; the base class always fails |
| Sources.GetPriceOutcome | src/utils/PriceSource.js:10-17 | a valid cache entry is returned with no fetch; otherwise the fetch's result is returned and, on success, stored with `lastUpdate` = now, the cache becoming the old one with exactly that entry written; a failure leaves the state unchanged; no key is ever dropped |
| Sources.BaseFetchFails | src/utils/PriceSource.js:10-17 | the base source answers exactly when its cache entry is valid |
| Sources.AdapterFetch | src/utils/CoinGeckoSource.js:30-66 | both adapters give the network result when it succeeds, otherwise their cached entry, otherwise the failure |
| Sources.StaleFallbackRestamped | src/utils/CoinGeckoSource.js:55-63 | a stale CoinGecko entry returned after a failed request is stored again by getPrice, which makes the whole cache fresh again |
| Sources.PollEntry | src/utils/KuCoinSource.js:80-90 | one polling tick gives each mapped non-stable currency its own try: its entry becomes the fresh price when that request succeeds and is kept otherwise; other entries are kept |
| Sources.PriceSource.constructor | src/utils/PriceSource.js:3-8 | a new source has an empty cache and a null `lastUpdate` |
| Sources.PriceSource.UpdateCache | src/utils/PriceSource.js:25-28 | the new state is `Store` of the old one |
| Sources.PriceSource.FetchPrice | src/utils/KuCoinSource.js:13-75 | the result and the new state are those of `FetchOutcome` |
| Sources.PriceSource.GetPrice | src/utils/PriceSource.js:10-17 | the result and the new state are those of `GetPriceOutcome` |
| Sources.PriceSource.PollTick | src/utils/CoinGeckoSource.js:72-82 | the loop over the map's keys ends in `PollOutcome` of the old state |
| CoinGecko.Request | src/utils/CoinGeckoSource.js:41-54 | a reply succeeds exactly when it is OK, decodes, and has a nonzero `usd` for the coin id; the price is that `usd` value, stamped now, from "CoinGecko"; a non-OK status is an HTTP error |
| CoinGecko.Fetch | src/utils/CoinGeckoSource.js:15-67 | stablecoins get 1.0 from "CoinGecko"; an unmapped currency fails with no cache fallback; a failed request falls back to the cached entry |
| CoinGecko.MappedIds | src/utils/CoinGeckoSource.js:7-12 | the currency map is BTC→bitcoin, NIM→nimiq, USDC→usd-coin, USDT→tether |
| CoinGecko.StablecoinsIgnoreNetwork | src/utils/CoinGeckoSource.js:17-23 | the stablecoins' answer does not depend on the network |
| CoinGecko.OnlyMappedUrlMatters | src/utils/CoinGeckoSource.js:25-32 | only the reply to the mapped id's URL decides the answer |
| CoinGecko.FetchedPriceNonzero | src/utils/CoinGeckoSource.js:46-65 | a price not taken from the cache is nonzero and stamped now; a failure means there was no cache entry or no mapping |
| KuCoin.Request | src/utils/KuCoinSource.js:38-57 | a reply succeeds exactly when it is OK, decodes, and has a non-empty `data.data.price`; the price is its parsed value, stamped now, from "KuCoin" |
| KuCoin.Fetch | src/utils/KuCoinSource.js:13-75 | stablecoins get 1.0 from "KuCoin" with no write; an unmapped currency fails; a success is stored in the cache; a failure falls back to the cached entry and writes nothing |
| KuCoin.MappedSymbols | src/utils/KuCoinSource.js:7-10 | only BTC→BTC-USDT and NIM→NIM-USDT are mapped |
| KuCoin.FetchWritesOnlyOnSuccess | src/utils/KuCoinSource.js:59-74 | a failure leaves the state unchanged, and no entry other than the requested currency changes |
| Quotes.Lookup | src/utils/CoinGeckoSource.js:25-26 | a map lookup finds a value exactly when the key is present, and the value is the one stored with it |
| Aggregator.ValidatePrice | src/utils/PriceManager.js:185-197 | with no previous price the check passes; otherwise it passes exactly when the price moved by at most 15% of the previous one |
| Aggregator.MostRecentBounds | src/utils/PriceManager.js:200-208 | the running maximum is at least every positive stamp, and when positive it is one of them |
| Aggregator.FirstCachedFinds | src/utils/PriceManager.js:120-127 | the last-resort scan finds nothing exactly when no source holds an entry; otherwise it returns the entry of the first source that holds one |
| Aggregator.Settle | src/utils/PriceManager.js:84-99 | a turn that has asked its source is never a skip; a returned lookup carries the states after the call and notifies only with a success; a failover keeps those states |
| Aggregator.SettleRules | src/utils/PriceManager.js:84-99 | an answer is returned and notified exactly when the guard accepts it; it is then the returned quote, with the source's counter reset to 0; anything else is `FailOver` with the source's error, or the validation error for a rejected price |
| Aggregator.FailOver | src/utils/PriceManager.js:100-117 | a failed turn returns without notifying, or moves on with the states unchanged |
| Aggregator.FailOverRules | src/utils/PriceManager.js:100-117 | the source's counter goes up by one; its own entry is returned exactly when it has one and the freshest entry across ALL sources is under five minutes old; otherwise the loop moves on with the error |
| Aggregator.Walk | src/utils/PriceManager.js:66-130 | a lookup keeps the number of sources, and notifies only with a successful result |
| Aggregator.Resolve | src/utils/PriceManager.js:45-131 | as `Walk`, for a whole getPrice |
| Aggregator.Deliveries | src/utils/PriceManager.js:174-182 | one notification invokes every subscriber once, in insertion order, whatever earlier ones threw |
| Aggregator.Subscribed | src/utils/PriceManager.js:168-169 | after `subscribe` the callback is in the set; adding a present callback changes nothing, and a new one is appended after all existing ones, so it is notified last |
| Aggregator.Unsubscribed | src/utils/PriceManager.js:170 | after deleting, the callback is absent and every other callback is present exactly as before |
| Aggregator.UnsubscribedDistinct | src/utils/PriceManager.js:168-170 | deleting keeps the set free of duplicates |
| Aggregator.PriceManager.constructor | src/utils/PriceManager.js:5-19 | CoinGecko first and KuCoin second, both new; no counters and no subscribers |
| Aggregator.PriceManager.Subscribe | src/utils/PriceManager.js:168-171 | the subscriber list becomes `Subscribed` of the old one; the handle is the callback |
| Aggregator.PriceManager.Unsubscribe | src/utils/PriceManager.js:170 | the loop leaves `Unsubscribed` of the old list and reports whether the callback was there |
| Aggregator.PriceManager.NotifySubscribers | src/utils/PriceManager.js:174-182 | the invocations made are `Deliveries` of the subscribers |
| Aggregator.PriceManager.GetPriceAge | src/utils/PriceManager.js:200-211 | the loop computes `PriceAge` of the sources' states: now minus the freshest positive stamp, or Infinity |
| Aggregator.PriceManager.NeedsUpdate | src/utils/PriceManager.js:214-217 | true exactly when every positive-stamped entry for the currency is more than five minutes old, in particular when there is none |
| Aggregator.PriceManager.CallSource | src/utils/PriceManager.js:75 | asking source i changes that source alone, as `GetPriceOutcome` says |
| Aggregator.PriceManager.TrySource | src/utils/PriceManager.js:66-117 | one turn either returns what the walk returns, in its final state, or leaves a state from which the walk continues at source i + 1 |
| Aggregator.PriceManager.SettleTurn | src/utils/PriceManager.js:84-99 | the end of a turn does what `Settle` says to counters and notifications |
| Aggregator.PriceManager.FailOverTurn | src/utils/PriceManager.js:100-116 | the failure branch does what `FailOver` says |
| Aggregator.PriceManager.Publish | src/utils/PriceManager.js:94 | the notification's invocations are appended to the log, and nothing else changes |
| Aggregator.PriceManager.LastResort | src/utils/PriceManager.js:120-127 | the scan returns `FirstCached` of the sources' states |
| Aggregator.PriceManager.GetPrice | src/utils/PriceManager.js:45-131 | the result, the sources' states, the counters and the invocations are exactly those of `Resolve` |
| Aggregator.PriceManager.GetAllPrices | src/utils/PriceManager.js:134-165 | the loop over the supported currencies ends in `AllPrices` of the old state |
| Aggregator.PriceManager.RecordPrice | src/utils/PriceManager.js:139-161 | one iteration records the entry `SweepStep` describes |
| AggregatorLemmas.SourcesObeyLaws | src/utils/PriceSource.js:10-17 | every source's getPrice keeps its provider and keys, caches what it returns, and never fails with the guard's error |
| AggregatorLemmas.TurnShape | src/utils/PriceManager.js:66-117 | a turn is skipped exactly at 3 or more failures; a returned quote is cached at that source; notifying resets its counter to 0, any other return or failover raises it by 1; only source i changes |
| AggregatorLemmas.ShortCircuits | src/utils/PriceManager.js:47-60 | an unsupported currency fails and a stablecoin gets 1.0 from "default", with no source asked, no counter changed and nobody notified |
| AggregatorLemmas.WalkStep | src/utils/PriceManager.js:66-117 | one turn of the loop, read off the walk: a suspended source is passed over; an accepted answer ends the walk with that quote, the source's counter reset and the subscribers notified; a failed or rejected one bumps the counter and ends the walk with the source's own entry exactly when it has one and the freshest entry across all sources is under five minutes old, else the walk goes on with that error |
| AggregatorLemmas.GuardNeverFires | src/utils/PriceManager.js:63-95 | with `lastValidPrice` null the outlier guard never rejects: at every turn, a source that is asked and answers ends the walk with that answer, its counter reset and the subscribers notified; no lookup fails with the validation error |
| AggregatorLemmas.FailOverIgnoresOwnAge | src/utils/PriceManager.js:108-113 | once any source holds an entry stamped under five minutes ago, a failed source's own entry is returned, however old it is |
| AggregatorLemmas.StaleEntryServedAsFresh | src/utils/PriceManager.js:108-113 | CoinGecko's BTC entry stamped 1000 is returned at 1000001, 999001 ms old, because KuCoin's entry is stamped 1000000 |
| AggregatorLemmas.OutlierGuardInert | src/utils/PriceManager.js:84-86 | getPrice never fails with "Price validation failed" |
| AggregatorLemmas.CachedWalkSucceeds | src/utils/PriceManager.js:110-127 | when any source holds an entry, however old, the walk succeeds |
| AggregatorLemmas.CachedNeverFails | src/utils/PriceManager.js:120-130 | getPrice of a supported currency fails only when no source held any entry |
| AggregatorLemmas.WalkQuoteCached | src/utils/PriceManager.js:95-126 | every quote a walk returns sits in some source's cache afterwards |
| AggregatorLemmas.ReturnedQuoteIsCached | src/utils/PriceManager.js:45-131 | apart from the stablecoins' fixed answer, every quote getPrice returns is cached by some source |
| AggregatorLemmas.NotifiedSourceReset | src/utils/PriceManager.js:89-94 | a notifying walk got its quote from a source whose counter is now 0 and which caches that quote |
| AggregatorLemmas.NotifiedQuoteFresh | src/utils/PriceManager.js:89-94 | the same, for a whole getPrice |
| AggregatorLemmas.NamesKept | src/utils/PriceManager.js:7-10 | replacing a source's state keeps the names distinct |
| AggregatorLemmas.SuspendedSourceUntouched | src/utils/PriceManager.js:66-72 | a source at or over the threshold is not asked and its counter does not move |
| AggregatorLemmas.UnlistedCounterKept | src/utils/PriceManager.js:89-105 | a counter whose name belongs to no source still to visit does not move |
| AggregatorLemmas.CountersMoveByOne | src/utils/PriceManager.js:89-105 | in one lookup each counter stays, drops to 0, or goes up by exactly one |
| AggregatorLemmas.AllSuspended | src/utils/PriceManager.js:62-130 | with every source suspended no source is asked; without any cache entry the call fails on the null `lastError` (a TypeError) |
| AggregatorLemmas.AllPricesEntries | src/utils/PriceManager.js:134-165 | getAllPrices has an entry for every supported currency; a stablecoin's entry is a quote of 1.0; only BTC and NIM can be null |
| AggregatorLemmas.SweepStepRecords | src/utils/PriceManager.js:139-161 | one iteration records the quote of a successful lookup; the entry is null exactly when a non-stablecoin lookup failed; the sources and counters are the lookup's; no other entry changes |
| AggregatorLemmas.WalkKeepsKeys | src/utils/PriceManager.js:66-117 | the loop of getPrice never drops a cached currency from any source |
| AggregatorLemmas.ResolveKeepsKeys | src/utils/PriceManager.js:45-131 | the same for a whole getPrice |
| AggregatorLemmas.AllPricesKeepsKeys | src/utils/PriceManager.js:134-165 | getAllPrices never drops a cached currency from any source |
| AggregatorLemmas.NullMeansNeverCached | src/utils/PriceManager.js:134-165 | a null entry in getAllPrices means no source held any entry for that currency when the sweep began |
| AggregatorLemmas.UnsubscribedAbsent | src/utils/PriceManager.js:170 | deleting a callback that is not subscribed changes nothing |
| AggregatorLemmas.UnsubscribedConcat | src/utils/PriceManager.js:170 | deleting works piece by piece, so it keeps the order of the others |
| AggregatorLemmas.SubscribeThenUnsubscribe | src/utils/PriceManager.js:168-171 | the returned unsubscribe function undoes the subscription of a new callback |
| Bitcoin.NewBtcHandler | src/handlers/BtcHandler.js:2-13 | construction succeeds exactly for an address the regular expression accepts, and fails with "Invalid Bitcoin address format" otherwise |
| Bitcoin.ValidAddressLength | src/handlers/BtcHandler.js:9 | accepted addresses are 26 to 40 characters after '1' or '3', and 28 to 42 with "bc1" |
| Bitcoin.ValidAddressCharacters | src/handlers/BtcHandler.js:9 | after the prefix only letters and digits appear, never 'I' or 'O' |
| Bitcoin.ValidAddressPlain | src/handlers/BtcHandler.js:9 | an accepted address has no '?' |
| Bitcoin.GenesisAddressAccepted | src/handlers/BtcHandler.js:9 | a real legacy address is accepted |
| Bitcoin.LongBech32Refused | src/handlers/BtcHandler.js:9 | a 62-character bech32 address is refused, being longer than the pattern allows |
| Bitcoin.EthereumAddressRefused | src/handlers/BtcHandler.js:9 | an Ethereum-style address is refused |
| Bitcoin.ParamsShape | src/handlers/BtcHandler.js:42-51 | the parameters come in the order amount, label, message, each at most once and present exactly when its option is truthy, so an amount of 0 is left out |
| Bitcoin.CreatePayment | src/handlers/BtcHandler.js:15-39 | the payment is created exactly when the QR code was made, and carries the URI and the address |
| Bitcoin.UriStartsWithAddress | src/handlers/BtcHandler.js:54 | the URI starts with "bitcoin:" and the address |
| Bitcoin.QueryEmptyIff | src/handlers/BtcHandler.js:53-54 | the query string is empty exactly when no parameter was added |
| Bitcoin.UriQuestionMark | src/handlers/BtcHandler.js:53-54 | the URI has a '?' exactly when at least one parameter was added |
| Bitcoin.UriRoundTrip | src/handlers/BtcHandler.js:41-55 | the URI of a valid handler reads back as its address and exactly the parameters added, in order |
| Bitcoin.AmountParameter | src/handlers/BtcHandler.js:43-45 | an amount of 0 is left out; any other amount comes first, with exactly 8 decimals, and reads back as the amount |
| FormUrlEncoded.SerializeRoundTrip | src/handlers/BtcHandler.js:42-53 | the query string parses back to exactly the parameters appended |
| FormUrlEncoded.DecodeEncode | src/handlers/BtcHandler.js:46-50 | a label or message is encoded without loss |
| FormUrlEncoded.EncodeAlphabet | src/handlers/BtcHandler.js:46-50 | an encoded name or value holds only unreserved characters, '%', hex digits and '+' |
| FormUrlEncoded.NoSeparators | src/handlers/BtcHandler.js:53-54 | so it has no '&', '=', '?' or '#' |
| Decimal.FixedRoundTrip | src/handlers/BtcHandler.js:44 | `toFixed` of an exact amount reads back as that amount |
| Decimal.FixedFractionDigits | src/handlers/BtcHandler.js:44 | `toFixed(places)` writes exactly that many digits after the point |
| Decimal.ValueOfDigitsOf | src/handlers/PolygonHandler.js:271-272 | the decimal text of a number is worth that number |
| Decimal.DigitsOfValueOf | src/handlers/PolygonHandler.js:271-272 | a canonical digit string is the text of its value |
| Polygon.NewPolygonHandler | src/handlers/PolygonHandler.js:2-34 | construction needs Web3, then an address Web3 accepts, then a currency with a contract, with those errors in that order |
| Polygon.OnlyStablecoins | src/handlers/PolygonHandler.js:307-311 | only USDC and USDT can be used |
| Polygon.Cents | src/handlers/PolygonHandler.js:73 | `toFixed(2)` rounds to the nearest hundredth, the larger on a tie |
| Polygon.ToFixed2Cents | src/handlers/PolygonHandler.js:73 | the text of a nonnegative amount reads back as its rounded cents |
| Polygon.CreatePayment | src/handlers/PolygonHandler.js:59-136 | created exactly when the decimals were fetched, the amount is a number in (0, 1000000] and the QR code is non-empty; a decimals failure comes first, then the amount check; every failure is reported, not thrown |
| Polygon.Message | src/handlers/PolygonHandler.js:126-127 | every reported error has a non-empty message |
| Polygon.NeverNotPositive | src/handlers/PolygonHandler.js:85-87 | the second positivity check never fires |
| Polygon.DecimalsIgnored | src/handlers/PolygonHandler.js:63-78 | the result does not depend on the token's decimals |
| Polygon.QrFailureReported | src/handlers/PolygonHandler.js:104-114 | a QR failure is reported after "Failed to generate QR code: ", and an empty QR code has a message of its own |
| Polygon.SmallestUnitOfCents | src/handlers/PolygonHandler.js:76-78 | the converted text of c cents is the dollars' digits, two cent digits and "0000", worth c·10^4 units |
| Polygon.SmallestUnitLeadingZero | src/handlers/PolygonHandler.js:77-78 | below one dollar the text is seven characters led by '0'; from one dollar up it is the plain decimal text of c·10^4; it is canonical exactly from one dollar up |
| Polygon.AmountInSmallestUnitOf | src/handlers/PolygonHandler.js:73-78 | the same facts for the text of a nonnegative amount |
| Polygon.CreatedSmallestUnit | src/handlers/PolygonHandler.js:73-82 | a created payment asks for its rounded cents times 10^4 units, ending in four '0' |
| Polygon.TinyAmountAsksForNothing | src/handlers/PolygonHandler.js:67-87 | 0.004 passes both amount checks and asks for "0000000" units |
| Polygon.SubDollarNeverMatches | src/handlers/PolygonHandler.js:240-242 | as written, no transfer ever matches an expected amount under one dollar |
| Polygon.HalfDollarMissed | src/handlers/PolygonHandler.js:271-272 | a transfer of exactly 500000 units is missed for an expected 0.5, though it is the right amount |
| Polygon.TransferMatchesIff | src/handlers/PolygonHandler.js:240-242 | the intended match accepts exactly c·10^4 units for c rounded cents |
| Polygon.AsWrittenAgreesFromOneDollar | src/handlers/PolygonHandler.js:271-272 | from one dollar up the match as written and the intended one agree |

## Left out

- Network I/O, JSON decoding and `parseFloat` are inputs. A reply is a value, and KuCoin's parsed price is given beside its text.
- Timers and start-up are left out: `setInterval`, the cleanup closures, and `PriceManager.initialize`, which starts KuCoin's polling and makes a probe fetch. One polling tick is modelled (`Sources.PriceSource.PollTick`).
- Concurrency is left out. Each call runs to completion before the next begins, and async lookups and polling ticks do not interleave.
- Each call reads `Date.now()` once. Where the source reads the clock several times during one call, the model reads one `now`.
- Logging (`console.*`) and error stacks (`details: error.stack`) are left out.
- Prices are exact reals, not IEEE doubles. `validatePrice`'s division is exact.
- Aggregator.Settle: its own contract states only the shape of a turn. The success rule is `Aggregator.SettleRules`, kept apart so the recursive lemmas about the walk stay within the solver's budget.
- Aggregator.FailOver: its own contract states only the shape of a failed turn. The fresh-cache rule is `Aggregator.FailOverRules`, for the same reason.
- Aggregator.Walk: its own contract states the number of sources and that only a success notifies. The turn-by-turn rules are `AggregatorLemmas.WalkStep`; the other walk properties are the lemmas of `AggregatorLemmas`.
- Aggregator.Resolve: as `Aggregator.Walk`; `AggregatorLemmas.ShortCircuits` covers the currencies that never reach the walk.
- Polygon.Cents: rounds the exact value of the number. The rounding of a decimal literal to a double happens before and is not modelled.
- Polygon.ToFixed2: does not model `toFixed`'s switch to exponent notation from 10^21 on. The amount check keeps `createPayment` below that; `monitorAddress` does not check its amount.
- Polygon.Message: the invalid-amount message leaves out the `${amount}` text. Rendering a JavaScript number as text is not modelled.
- Polygon.NewPolygonHandler: the Web3 provider and the token contract failing to initialise are left out. `web3.utils.isAddress` is given as a boolean.
- Polygon.NewPolygonHandler: a prototype key such as "constructor" is truthy in `TOKEN_CONTRACTS` and would pass the currency check. The map here holds only the two literal keys.
- QR code generation (`generateQrCode` in both handlers) needs a browser. Its outcome is a parameter, and a QR code that never loads, leaving the promise pending, is not modelled.
- `getDecimals` and its memoisation are left out. Only the outcome of the fetch is a parameter, since the value is never used (`Polygon.DecimalsIgnored`).
- `checkPaymentStatus` in both handlers, the BlockCypher polling of the Bitcoin `monitorAddress`, and the Web3 log subscription of the Polygon one are left out. Polygon's expected-amount match is modelled, but not the event filter or topics.
- Polygon.MonitorMatchesAsWritten: assumes web3 decodes a uint256 as its canonical decimal text.
- `getPaymentDetails` in both handlers is display text only and is left out.
- Bitcoin.Params: the amount is a whole number of satoshis, so `toFixed(8)` writes it exactly. Options that are not strings (numbers, objects) are left out.
- FormUrlEncoded.Encode: Dafny characters are Unicode scalar values. JavaScript's lone surrogates, which `URLSearchParams` replaces by U+FFFD, are left out.
- Bitcoin.ParseUri and FormUrlEncoded.Parse are readers written for the round-trip proofs. The handler has no parser.
- `NimHandler.js`, `gateflo.js`, `StyleDetector.js`, `errors.js` and `rollup.config.js` are not part of this model.

## Findings

| source | as written | input that shows it | evidently intended | confidence | as-written member | corrected member |
|---|---|---|---|---|---|---|
| src/handlers/PolygonHandler.js:240-242, 271-272 | the expected amount is built as text with the whole part copied verbatim ("0.50" becomes "0500000") and compared with `===` against the decoded uint256, whose decimal text has no leading zero | expected amount 0.5 and a transfer of 500000 units: "500000" is not "0500000", so the payment is never recognised (`Polygon.HalfDollarMissed`); no sub-dollar amount ever matches (`Polygon.SubDollarNeverMatches`) | recognise a transfer of exactly the rounded cents times 10^4 units (`Polygon.TransferMatchesIff`) | not executed | Polygon.MonitorMatchesAsWritten | Polygon.TransferMatches |
