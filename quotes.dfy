/** Values shared by the price sources and the aggregator: the supported
    currencies, quotes, the errors a lookup can end in, and the replies of the
    two remote price APIs as seen by the adapters. */
module Quotes {
  import opened Wrappers

  const BTC: string := "BTC"
  const NIM: string := "NIM"
  const USDC: string := "USDC"
  const USDT: string := "USDT"

  /** The aggregator's supported currencies, in the order getAllPrices visits them. */
  const Supported: seq<string> := [BTC, NIM, USDC, USDT]

  /** The two stablecoins every layer short-circuits to a price of 1.0. */
  predicate IsStable(currency: string) {
    currency == USDC || currency == USDT
  }

  /** A price observation: USD price, the time (ms since the epoch) it was
      obtained, and the name of whoever produced it. The source's quote objects
      carry no currency field. */
  datatype Quote = Quote(price: real, timestamp: int, source: string)

  /** Why a lookup failed. */
  datatype Error =
    | UnsupportedCurrency(currency: string)   // "Unsupported currency: ..."
    | NetworkError                            // fetch() itself rejected
    | HttpError(status: int)                  // response.ok was false
    | MalformedJson                           // response.json() rejected
    | InvalidFormat(currency: string)         // "Invalid response format for ..."
    | NotImplemented                          // the base fetchPrice
    | PriceValidationFailed                   // the aggregator's 15% guard
    | AllSourcesFailed(cause: Error)          // "Failed to fetch price ... from all sources"
    | NullLastError                           // `lastError.message` read on null: a TypeError

  /** KuCoin's `data.data.price` is a decimal string; `parsed` is what
      parseFloat makes of it, taken as given. */
  datatype RawPrice = RawPrice(text: string, parsed: real)

  /** KuCoin's `data.data`. */
  datatype Ticker = Ticker(price: Option<RawPrice>)

  /** CoinGecko's `data[coinId]` object with its optional `usd` field. */
  datatype GeckoCoin = GeckoCoin(usd: Option<real>)

  /** A decoded JSON body in one of the two shapes the adapters look for:
      CoinGecko's `{ [coinId]: { usd } }` and KuCoin's `{ data: { price } }`. */
  datatype Body =
    | GeckoPrices(coins: map<string, GeckoCoin>)
    | KuCoinLevel1(data: Option<Ticker>)

  /** What `fetch(url)` yields: a rejected promise, or a status with a body that
      is either decodable JSON or not. */
  datatype Reply = Unreachable | Response(status: int, body: Option<Body>)

  /** The remote side as seen by the adapters: the reply to a GET of each URL. */
  type Network = string -> Reply

  /** `response.ok`: a status in the range 200-299. */
  predicate IsOk(status: int) {
    200 <= status <= 299
  }

  /** Looks a key up in a hand-authored table kept in declaration order, as a
      JavaScript object literal keeps its keys. */
  function Lookup(table: seq<(string, string)>, key: string): (r: Option<string>)
    ensures r.Some? <==> exists k :: 0 <= k < |table| && table[k].0 == key
    ensures r.Some? ==> exists k :: 0 <= k < |table| && table[k] == (key, r.value)
  {
    if |table| == 0 then None
    else if table[0].0 == key then Some(table[0].1)
    else
      var r := Lookup(table[1..], key);
      assert forall k :: 1 <= k < |table| ==> table[k] == table[1..][k - 1];
      r
  }

  /** A key is found at its first occurrence. */
  lemma {:induction false} LookupFirst(table: seq<(string, string)>, key: string, k: nat)
    requires k < |table| && table[k].0 == key
    requires forall j :: 0 <= j < k ==> table[j].0 != key
    ensures Lookup(table, key) == Some(table[k].1)
  {
    if k > 0 {
      LookupFirst(table[1..], key, k - 1);
    }
  }

  /** `Object.keys(table)`, in declaration order. */
  function Keys(table: seq<(string, string)>): (keys: seq<string>)
    ensures |keys| == |table|
    ensures forall k :: 0 <= k < |table| ==> keys[k] == table[k].0
  {
    if |table| == 0 then [] else [table[0].0] + Keys(table[1..])
  }
}
