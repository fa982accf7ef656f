/** The aggregator (src/utils/PriceManager.js): an ordered list of sources,
    a failure counter per source name, stale-cache arbitration, and
    subscribers notified on every fresh resolution. The pure functions below
    give the meaning of one lookup; the class PriceManager performs it step by
    step over the source objects and is proved to agree with them. */
module Aggregator {
  import opened Wrappers
  import opened Quotes
  import opened SourceCache
  import Sources

  /** A source whose counter reaches this many failures is skipped. */
  const FailureThreshold: nat := 3
  /** Five minutes, the age under which a cached answer counts as fresh. */
  const MaxAge: int := 5 * 60 * 1000
  /** The 15% change tolerated between two accepted prices. */
  const MaxChange: real := 0.15

  /** A subscriber callback, by identity. */
  type Callback = nat

  /** One invocation of a subscriber; `threw` records that it raised an
      error, which was caught and logged. */
  datatype Delivery = Delivery(subscriber: Callback, currency: string, quote: Quote, threw: bool)

  /** The result of getPriceAge: milliseconds, or Infinity. */
  datatype Age = Finite(ms: int) | Infinite

  /** The outcome of one getPrice call: what it returns or throws, the sources'
      states and the counters afterwards, and whether subscribers were
      notified with the returned quote. */
  datatype Outcome = Outcome(result: Result<Quote, Error>, sources: seq<SourceState>, failures: map<string, nat>, notify: bool)

  /** `sourceFailures.get(name) || 0`. */
  function FailureCount(failures: map<string, nat>, name: string): nat {
    if name in failures then failures[name] else 0
  }

  function Abs(x: real): real {
    if x < 0.0 then -x else x
  }

  /** validatePrice: with no (or a zero) previous price anything passes;
      otherwise the price fails when it moved by more than 15% of the previous
      one. A negative previous price makes the ratio negative, so it passes. */
  function ValidatePrice(price: real, previous: real): (ok: bool)
    ensures previous <= 0.0 ==> ok
    ensures previous > 0.0 ==> (ok <==> Abs(price - previous) <= MaxChange * previous)
  {
    if previous == 0.0 then true
    else
      var change := Abs(price - previous) / previous;
      assert previous > 0.0 ==> (change > MaxChange <==> Abs(price - previous) > MaxChange * previous) by {
        if previous > 0.0 {
          assert change * previous == Abs(price - previous);
        }
      }
      !(change > MaxChange)
  }

  /** The freshest positive time stamp among the entries for the currency
      of the first n sources, 0 when there is none; the running maximum of
      getPriceAge, which starts at 0 and keeps strictly larger stamps. */
  function MostRecent(states: seq<SourceState>, currency: string, n: nat): (t: int)
    requires n <= |states|
    ensures t >= 0
  {
    if n == 0 then 0
    else
      var m := MostRecent(states, currency, n - 1);
      var cache := states[n - 1].cache;
      if currency in cache && cache[currency].timestamp > m then cache[currency].timestamp else m
  }

  /** MostRecent is the largest positive timestamp among the first n
      sources' entries for the currency, and 0 when there is none. */
  lemma {:induction false} MostRecentBounds(states: seq<SourceState>, currency: string, n: nat)
    requires n <= |states|
    ensures var t := MostRecent(states, currency, n);
            && (forall j :: 0 <= j < n && currency in states[j].cache && states[j].cache[currency].timestamp > 0 ==>
                  states[j].cache[currency].timestamp <= t)
            && (t > 0 ==> exists j :: 0 <= j < n && currency in states[j].cache && states[j].cache[currency].timestamp == t)
  {
    if n > 0 {
      MostRecentBounds(states, currency, n - 1);
    }
  }

  /** `getPriceAge(currency)`: now minus the freshest stamp, or Infinity when there is none. */
  function PriceAge(states: seq<SourceState>, currency: string, now: int): Age {
    var m := MostRecent(states, currency, |states|);
    if m != 0 then Finite(now - m) else Infinite
  }

  /** `getPriceAge(currency) < 5 * 60 * 1000`; Infinity is never below. */
  predicate IsFresh(age: Age) {
    age.Finite? && age.ms < MaxAge
  }

  /** The last-resort scan: the first source, in list order, holding any entry
      for the currency, whatever its age. */
  function FirstCached(states: seq<SourceState>, currency: string): (r: Option<Quote>)
    ensures r.Some? ==> |states| > 0
    decreases |states|
  {
    if |states| == 0 then None
    else if currency in states[0].cache then Some(states[0].cache[currency])
    else FirstCached(states[1..], currency)
  }

  /** FirstCached finds nothing exactly when no source holds an entry, and
      otherwise the entry of the first source that holds one. */
  lemma {:induction false} FirstCachedFinds(states: seq<SourceState>, currency: string)
    ensures var r := FirstCached(states, currency);
            && (r.None? <==> forall j :: 0 <= j < |states| ==> currency !in states[j].cache)
            && (r.Some? ==> exists j :: && 0 <= j < |states| && currency in states[j].cache
                                        && states[j].cache[currency] == r.value
                                        && forall k :: 0 <= k < j ==> currency !in states[k].cache)
    decreases |states|
  {
    if |states| > 0 && currency !in states[0].cache {
      FirstCachedFinds(states[1..], currency);
      assert forall j :: 1 <= j < |states| ==> states[j] == states[1..][j - 1];
      if FirstCached(states, currency).Some? {
        var r := FirstCached(states, currency);
        var j :| && 0 <= j < |states[1..]| && currency in states[1..][j].cache
                 && states[1..][j].cache[currency] == r.value
                 && forall k :: 0 <= k < j ==> currency !in states[1..][k].cache;
        assert states[1..][j] == states[j + 1];
        forall k | 0 <= k < j + 1 ensures currency !in states[k].cache {
          if k > 0 { assert states[k] == states[1..][k - 1]; }
        }
      }
    }
  }

  /** The end of getPrice when no source returned: the last-resort scan, else
      an error built from `lastError.message`, which is a TypeError when
      every source was skipped and `lastError` is still null. */
  function Exhausted(states: seq<SourceState>, failures: map<string, nat>, currency: string, lastError: Option<Error>): Outcome {
    match FirstCached(states, currency)
    case Some(q) => Outcome(Success(q), states, failures, false)
    case None =>
      Outcome(Failure(if lastError.Some? then AllSourcesFailed(lastError.value) else NullLastError), states, failures, false)
  }

  /** What one turn of getPrice's loop does at source i. */
  datatype Turn =
    | Skipped
    | Returned(l: Outcome)
    | FailedOver(after: seq<SourceState>, bumped: map<string, nat>, error: Error)

  /** The outlier guard: a successful answer is accepted unless an earlier
      price was accepted in this lookup and this one strays too far from it. */
  predicate Accepted(priceData: Result<Quote, Error>, lastValid: Option<Quote>) {
    priceData.Success? && !(lastValid.Some? && !ValidatePrice(priceData.value.price, lastValid.value.price))
  }

  /** The end of one turn of getPrice's loop once source i has answered
      `priceData` and the sources' states have become `after`: an accepted
      answer resets the source's counter, notifies and returns; otherwise
      the turn fails over. */
  function Settle(after: seq<SourceState>, failures: map<string, nat>, currency: string, now: int,
                  i: nat, lastValid: Option<Quote>, priceData: Result<Quote, Error>): (t: Turn)
    requires i < |after|
    ensures t.Returned? ==> t.l.sources == after && (t.l.notify ==> t.l.result.Success?)
    ensures t.FailedOver? ==> t.after == after
    ensures !t.Skipped?
  {
    if Accepted(priceData, lastValid) then
      Returned(Outcome(Success(priceData.value), after, failures[Name(after[i].provider) := 0], true))
    else
      FailOver(after, failures, currency, now, i, if priceData.Failure? then priceData.error else PriceValidationFailed)
  }

  /** A failed (or rejected) answer from source i: its counter goes up by
      one; that source's cached entry is returned when the freshest entry
      across all sources is under five minutes old, else the loop moves on
      with this error. */
  function FailOver(after: seq<SourceState>, failures: map<string, nat>, currency: string, now: int, i: nat, error: Error): (t: Turn)
    requires i < |after|
    ensures t.Returned? ==> t.l.sources == after && !t.l.notify
    ensures t.FailedOver? ==> t.after == after
    ensures !t.Skipped?
  {
    var name := Name(after[i].provider);
    var bumped := failures[name := FailureCount(failures, name) + 1];
    if currency in after[i].cache && IsFresh(PriceAge(after, currency, now)) then
      Returned(Outcome(Success(after[i].cache[currency]), after, bumped, false))
    else FailedOver(after, bumped, error)
  }

  /** The success rule of a turn: an answer is returned, with its source's
      counter reset to 0 and the subscribers notified, exactly when the
      guard accepts it; every other outcome fails over. */
  lemma SettleRules(after: seq<SourceState>, failures: map<string, nat>, currency: string, now: int,
                    i: nat, lastValid: Option<Quote>, priceData: Result<Quote, Error>)
    requires i < |after|
    ensures var t := Settle(after, failures, currency, now, i, lastValid, priceData);
            && (Accepted(priceData, lastValid) <==> t.Returned? && t.l.notify)
            && (Accepted(priceData, lastValid) ==>
                  t.l == Outcome(Success(priceData.value), after, failures[Name(after[i].provider) := 0], true))
            && (!Accepted(priceData, lastValid) ==>
                  t == FailOver(after, failures, currency, now, i, if priceData.Failure? then priceData.error else PriceValidationFailed))
  {
  }

  /** The fresh-cache rule of a failed turn: source i's counter goes up by
      one, and its own entry is returned exactly when it has one and the
      freshest entry across all sources is under five minutes old;
      otherwise the loop moves on with the error. */
  lemma FailOverRules(after: seq<SourceState>, failures: map<string, nat>, currency: string, now: int, i: nat, error: Error)
    requires i < |after|
    ensures var t := FailOver(after, failures, currency, now, i, error);
            var name := Name(after[i].provider);
            var bumped := failures[name := FailureCount(failures, name) + 1];
            && (t.Returned? <==> currency in after[i].cache && IsFresh(PriceAge(after, currency, now)))
            && (t.Returned? ==> t.l == Outcome(Success(after[i].cache[currency]), after, bumped, false))
            && (t.FailedOver? ==> t.bumped == bumped && t.error == error)
  {
  }

  /** How a source answers `source.getPrice(currency)`: its result and its
      new state. */
  type Serve = SourceState -> (Result<Quote, Error>, SourceState)

  /** getPrice of every source, for one currency, network and time. */
  function ServeFrom(currency: string, net: Network, now: int): Serve {
    (s: SourceState) => Sources.GetPriceOutcome(s, currency, net, now)
  }

  /** One turn of getPrice's loop at source i: a source at or over the
      threshold is skipped; otherwise its getPrice is called and the turn
      settles on the answer. */
  function TurnAt(states: seq<SourceState>, failures: map<string, nat>, currency: string, serve: Serve, now: int,
                  i: nat, lastValid: Option<Quote>): (t: Turn)
    requires i < |states|
    ensures t.Returned? ==> |t.l.sources| == |states| && (t.l.notify ==> t.l.result.Success?)
    ensures t.FailedOver? ==> |t.after| == |states|
  {
    if FailureCount(failures, Name(states[i].provider)) >= FailureThreshold then Skipped
    else
      var served := serve(states[i]);
      Settle(states[i := served.1], failures, currency, now, i, lastValid, served.0)
  }

  /** The loop of getPrice from source i on, with its running variables
      `lastError` and `lastValidPrice`. `lastValidPrice` is only assigned
      right before a return, so it is passed on unchanged. */
  function Walk(states: seq<SourceState>, failures: map<string, nat>, currency: string, serve: Serve, now: int,
                i: nat, lastError: Option<Error>, lastValid: Option<Quote>): (l: Outcome)
    requires i <= |states|
    ensures |l.sources| == |states|
    ensures l.notify ==> l.result.Success?
    decreases |states| - i, 1
  {
    if i == |states| then Exhausted(states, failures, currency, lastError)
    else Continue(TurnAt(states, failures, currency, serve, now, i, lastValid), states, failures, currency, serve, now, i, lastError, lastValid)
  }

  /** The rest of the loop once the turn at source i is over. */
  function Continue(t: Turn, states: seq<SourceState>, failures: map<string, nat>, currency: string, serve: Serve, now: int,
                    i: nat, lastError: Option<Error>, lastValid: Option<Quote>): (l: Outcome)
    requires i < |states|
    requires t.Returned? ==> |t.l.sources| == |states| && (t.l.notify ==> t.l.result.Success?)
    requires t.FailedOver? ==> |t.after| == |states|
    ensures |l.sources| == |states|
    ensures l.notify ==> l.result.Success?
    decreases |states| - i, 0
  {
    match t
    case Skipped => Walk(states, failures, currency, serve, now, i + 1, lastError, lastValid)
    case Returned(l) => l
    case FailedOver(after, bumped, error) => Walk(after, bumped, currency, serve, now, i + 1, Some(error), lastValid)
  }

  /** getPrice: unsupported currencies fail at once, stablecoins answer 1.0
      from "default", every other currency walks the sources. */
  function Resolve(states: seq<SourceState>, failures: map<string, nat>, currency: string, net: Network, now: int): (l: Outcome)
    ensures |l.sources| == |states|
    ensures l.notify ==> l.result.Success?
  {
    if currency !in Supported then Outcome(Failure(UnsupportedCurrency(currency)), states, failures, false)
    else if IsStable(currency) then Outcome(Success(Quote(1.0, now, "default")), states, failures, false)
    else Walk(states, failures, currency, ServeFrom(currency, net, now), now, 0, None, None)
  }

  /** The invocations one notification makes: every subscriber, in insertion
      order, exactly once, whether or not an earlier one threw. */
  function Deliveries(subscribers: seq<Callback>, currency: string, q: Quote, faulty: set<Callback>): (log: seq<Delivery>)
    ensures |log| == |subscribers|
    ensures forall k :: 0 <= k < |subscribers| ==> log[k] == Delivery(subscribers[k], currency, q, subscribers[k] in faulty)
  {
    seq(|subscribers|, k requires 0 <= k < |subscribers| => Delivery(subscribers[k], currency, q, subscribers[k] in faulty))
  }

  /** The invocations a lookup makes: one notification with the returned
      quote when the lookup notifies, none otherwise. */
  function Notified(l: Outcome, subscribers: seq<Callback>, currency: string, faulty: set<Callback>): (log: seq<Delivery>)
    requires l.notify ==> l.result.Success?
    ensures |log| == if l.notify then |subscribers| else 0
  {
    if l.notify then Deliveries(subscribers, currency, l.result.value, faulty) else []
  }

  /** `priceSubscribers.add(callback)`: a Set keeps one copy, in first-insertion order,
      so adding a present callback changes nothing and a new one is notified last. */
  function Subscribed(subscribers: seq<Callback>, cb: Callback): (r: seq<Callback>)
    ensures cb in r
    ensures cb in subscribers ==> r == subscribers
    ensures cb !in subscribers ==> r == subscribers + [cb]
  {
    if cb in subscribers then subscribers else subscribers + [cb]
  }

  /** `priceSubscribers.delete(callback)`. */
  function Unsubscribed(subscribers: seq<Callback>, cb: Callback): (r: seq<Callback>)
    ensures cb !in r
    ensures forall x :: x != cb ==> (x in r <==> x in subscribers)
    decreases |subscribers|
  {
    if |subscribers| == 0 then []
    else
      var rest := Unsubscribed(subscribers[1..], cb);
      assert forall x :: x in subscribers <==> x == subscribers[0] || x in subscribers[1..];
      if subscribers[0] == cb then rest else [subscribers[0]] + rest
  }

  /** The entry getAllPrices records for one currency. */
  function Entry(l: Outcome, currency: string, now: int): Option<Quote> {
    if l.result.Success? then Some(l.result.value)
    else if IsStable(currency) then Some(Quote(1.0, now, "default"))
    else None
  }

  /** The state getAllPrices works on: the prices recorded so far, the
      sources' states, the failure counters and the log of subscriber
      invocations. */
  datatype Sweep = Sweep(prices: map<string, Option<Quote>>, sources: seq<SourceState>, failures: map<string, nat>, log: seq<Delivery>)

  /** One iteration of getAllPrices: the currency is looked up in the
      current state and its entry recorded. */
  function SweepStep(w: Sweep, currency: string, net: Network, now: int, subscribers: seq<Callback>, faulty: set<Callback>): (v: Sweep)
    ensures |v.sources| == |w.sources|
  {
    var l := Resolve(w.sources, w.failures, currency, net, now);
    Sweep(w.prices[currency := Entry(l, currency, now)], l.sources, l.failures, w.log + Notified(l, subscribers, currency, faulty))
  }

  /** getAllPrices over the first k supported currencies, from `start`. */
  function AllPrices(start: Sweep, net: Network, now: int, subscribers: seq<Callback>, faulty: set<Callback>, k: nat): (w: Sweep)
    requires k <= |Supported|
    ensures |w.sources| == |start.sources|
    decreases k
  {
    if k == 0 then start
    else SweepStep(AllPrices(start, net, now, subscribers, faulty, k - 1), Supported[k - 1], net, now, subscribers, faulty)
  }

  /** No two sources share a name, so no two share a counter. */
  predicate DistinctNames(states: seq<SourceState>) {
    forall a, b :: 0 <= a < b < |states| ==> Name(states[a].provider) != Name(states[b].provider)
  }

  /** The sources are distinct objects with distinct names. */
  ghost predicate SourcesDistinct(sources: seq<Sources.PriceSource>) {
    && (forall a, b :: 0 <= a < b < |sources| ==> sources[a] != sources[b])
    && (forall a, b :: 0 <= a < b < |sources| ==> Name(sources[a].provider) != Name(sources[b].provider))
  }

  /** A subscriber list with each callback at most once. */
  predicate NoDuplicates(subscribers: seq<Callback>) {
    forall a, b :: 0 <= a < b < |subscribers| ==> subscribers[a] != subscribers[b]
  }

  /** The price manager: its sources in order of preference, the failure
      counters, the subscriber set, and the log of subscriber invocations
      (the callbacks' observable effect). */
  class PriceManager {
    const sources: seq<Sources.PriceSource>
    var failures: map<string, nat>
    var subscribers: seq<Callback>
    var deliveries: seq<Delivery>

    ghost predicate Valid()
      reads this
    {
      SourcesDistinct(sources) && NoDuplicates(subscribers)
    }

    /** The sources' states, in order. */
    ghost function States(): (r: seq<SourceState>)
      reads sources
      ensures |r| == |sources|
      ensures forall k :: 0 <= k < |sources| ==> r[k] == sources[k].State()
    {
      seq(|sources|, k requires 0 <= k < |sources| reads sources => sources[k].State())
    }

    /** CoinGecko first, then KuCoin; no failures, no subscribers. */
    constructor ()
      ensures Valid()
      ensures forall k :: 0 <= k < |sources| ==> fresh(sources[k])
      ensures States() == [Initial(CoinGecko), Initial(KuCoin)]
      ensures failures == map[] && subscribers == [] && deliveries == []
    {
      var gecko := new Sources.PriceSource(CoinGecko);
      var kucoin := new Sources.PriceSource(KuCoin);
      sources := [gecko, kucoin];
      failures := map[];
      subscribers := [];
      deliveries := [];
    }

    /** `subscribe`: adds the callback once; the callback is its own handle. */
    method Subscribe(cb: Callback) returns (handle: Callback)
      requires Valid()
      modifies this
      ensures Valid()
      ensures subscribers == Subscribed(old(subscribers), cb) && handle == cb
      ensures failures == old(failures) && deliveries == old(deliveries)
    {
      if cb !in subscribers {
        subscribers := subscribers + [cb];
      }
      handle := cb;
    }

    /** The unsubscribe closure: `priceSubscribers.delete(handle)`, which
        reports whether the callback was present. */
    method Unsubscribe(handle: Callback) returns (removed: bool)
      requires Valid()
      modifies this
      ensures Valid()
      ensures subscribers == Unsubscribed(old(subscribers), handle) && removed == (handle in old(subscribers))
      ensures failures == old(failures) && deliveries == old(deliveries)
    {
      removed := handle in subscribers;
      var kept: seq<Callback> := [];
      var k := |subscribers|;
      while k > 0
        invariant 0 <= k <= |subscribers|
        invariant kept == Unsubscribed(subscribers[k..], handle)
      {
        k := k - 1;
        assert subscribers[k..][1..] == subscribers[k + 1..];
        if subscribers[k] != handle {
          kept := [subscribers[k]] + kept;
        }
      }
      assert subscribers[0..] == subscribers;
      UnsubscribedDistinct(subscribers, handle);
      subscribers := kept;
    }

    /** `notifySubscribers`: the invocations made, in insertion order; a
        faulty subscriber's error is caught and the loop goes on. */
    method NotifySubscribers(currency: string, q: Quote, faulty: set<Callback>) returns (log: seq<Delivery>)
      ensures log == Deliveries(subscribers, currency, q, faulty)
    {
      log := [];
      for k := 0 to |subscribers|
        invariant log == Deliveries(subscribers[..k], currency, q, faulty)
      {
        var cb := subscribers[k];
        log := log + [Delivery(cb, currency, q, cb in faulty)];
      }
      assert subscribers[..|subscribers|] == subscribers;
    }

    /** `getPriceAge`: a running maximum over the sources' entries. */
    method GetPriceAge(currency: string, now: int) returns (age: Age)
      ensures age == PriceAge(States(), currency, now)
    {
      ghost var states := States();
      var mostRecent := 0;
      for k := 0 to |sources|
        invariant mostRecent == MostRecent(states, currency, k)
      {
        var cached := sources[k].cache;
        if currency in cached && cached[currency].timestamp > mostRecent {
          mostRecent := cached[currency].timestamp;
        }
      }
      age := if mostRecent != 0 then Finite(now - mostRecent) else Infinite;
    }

    /** `needsUpdate`: true exactly when every positive-stamped entry for the
        currency is more than five minutes old (in particular when there is
        none). */
    method NeedsUpdate(currency: string, now: int) returns (b: bool)
      ensures b <==> forall k :: 0 <= k < |sources| && currency in sources[k].cache && sources[k].cache[currency].timestamp > 0 ==>
                                  now - sources[k].cache[currency].timestamp > MaxAge
    {
      var age := GetPriceAge(currency, now);
      b := match age
        case Infinite => true
        case Finite(ms) => ms > MaxAge;
      ghost var states := States();
      ghost var m := MostRecent(states, currency, |states|);
      MostRecentBounds(states, currency, |states|);
      if m > 0 {
        var j :| 0 <= j < |states| && currency in states[j].cache && states[j].cache[currency].timestamp == m;
        assert sources[j].cache == states[j].cache;
      }
    }

    /** `source.getPrice(currency)` on source i: only that source's state
        changes, as Sources.GetPriceOutcome says. */
    method CallSource(i: nat, currency: string, net: Network, now: int) returns (priceData: Result<Quote, Error>)
      requires Valid() && i < |sources|
      modifies sources[i]
      ensures var served := Sources.GetPriceOutcome(old(States())[i], currency, net, now);
              priceData == served.0 && States() == old(States())[i := served.1]
    {
      ghost var states := States();
      var source := sources[i];
      priceData := source.GetPrice(currency, net, now);
      forall k | 0 <= k < |sources| && k != i ensures States()[k] == states[k] {
        assert sources[k] != source;
      }
    }

    /** One turn of getPrice's loop, at source i: `done` says the loop
        returns `r`; otherwise it goes on to source i + 1 with `nextError` as
        its `lastError`. Either way the rest of the walk is unchanged. */
    method TrySource(i: nat, currency: string, net: Network, now: int, faulty: set<Callback>,
                     lastError: Option<Error>, lastValidPrice: Option<Quote>)
      returns (done: bool, r: Result<Quote, Error>, nextError: Option<Error>)
      requires Valid() && i < |sources|
      modifies this, sources[i]
      ensures Valid()
      ensures subscribers == old(subscribers)
      ensures var w := Walk(old(States()), old(failures), currency, ServeFrom(currency, net, now), now, i, lastError, lastValidPrice);
              if done then
                && r == w.result && States() == w.sources && failures == w.failures
                && deliveries == old(deliveries) + Notified(w, subscribers, currency, faulty)
              else
                && deliveries == old(deliveries)
                && w == Walk(States(), failures, currency, ServeFrom(currency, net, now), now, i + 1, nextError, lastValidPrice)
    {
      var count := FailureCount(failures, Name(sources[i].provider));
      if count >= FailureThreshold {
        done, r, nextError := false, Failure(NullLastError), lastError;
        return;
      }
      var priceData := CallSource(i, currency, net, now);
      done, r, nextError := SettleTurn(i, currency, now, faulty, lastError, lastValidPrice, priceData);
    }

    /** The end of a turn once source i has answered, as Settle describes it. */
    method SettleTurn(i: nat, currency: string, now: int, faulty: set<Callback>,
                      lastError: Option<Error>, lastValidPrice: Option<Quote>, priceData: Result<Quote, Error>)
      returns (done: bool, r: Result<Quote, Error>, nextError: Option<Error>)
      requires i < |sources|
      modifies this
      ensures subscribers == old(subscribers) && States() == old(States())
      ensures var t := Settle(old(States()), old(failures), currency, now, i, lastValidPrice, priceData);
              && done == t.Returned?
              && (t.Returned? ==>
                    && r == t.l.result && failures == t.l.failures
                    && deliveries == old(deliveries) + Notified(t.l, subscribers, currency, faulty))
              && (t.FailedOver? ==> nextError == Some(t.error) && failures == t.bumped && deliveries == old(deliveries))
    {
      if priceData.Success? && !(lastValidPrice.Some? && !ValidatePrice(priceData.value.price, lastValidPrice.value.price)) {
        failures := failures[Name(sources[i].provider) := 0];
        Publish(currency, priceData.value, faulty);
        done, r, nextError := true, Success(priceData.value), lastError;
        return;
      }
      var rejected := if priceData.Failure? then priceData.error else PriceValidationFailed;
      done, r, nextError := FailOverTurn(i, currency, now, rejected);
    }

    /** The failure branch of a turn, as FailOver describes it. */
    method FailOverTurn(i: nat, currency: string, now: int, error: Error)
      returns (done: bool, r: Result<Quote, Error>, nextError: Option<Error>)
      requires i < |sources|
      modifies this
      ensures subscribers == old(subscribers) && States() == old(States()) && deliveries == old(deliveries)
      ensures var t := FailOver(old(States()), old(failures), currency, now, i, error);
              && done == t.Returned?
              && (t.Returned? ==> r == t.l.result && failures == t.l.failures)
              && (t.FailedOver? ==> nextError == Some(t.error) && failures == t.bumped)
    {
      var name := Name(sources[i].provider);
      var count := FailureCount(failures, name);
      var age := GetPriceAge(currency, now);
      var cache := sources[i].cache;
      assert States()[i].cache == cache;
      failures := failures[name := count + 1];
      if currency in cache && IsFresh(age) {
        done, r, nextError := true, Success(cache[currency]), Some(error);
        return;
      }
      done, r, nextError := false, Failure(NullLastError), Some(error);
    }

    /** `notifySubscribers`, with its invocations appended to the log. */
    method Publish(currency: string, q: Quote, faulty: set<Callback>)
      modifies this
      ensures deliveries == old(deliveries) + Deliveries(subscribers, currency, q, faulty)
      ensures failures == old(failures) && subscribers == old(subscribers)
    {
      var log := NotifySubscribers(currency, q, faulty);
      deliveries := deliveries + log;
    }

    /** The last-resort scan of getPrice: the first source holding any entry
        for the currency. */
    method LastResort(currency: string) returns (cached: Option<Quote>)
      ensures cached == FirstCached(States(), currency)
    {
      ghost var states := States();
      var j := 0;
      while j < |sources|
        invariant 0 <= j <= |sources|
        invariant FirstCached(states, currency) == FirstCached(states[j..], currency)
      {
        assert states[j..][1..] == states[j + 1..];
        if currency in sources[j].cache {
          return Some(sources[j].cache[currency]);
        }
        j := j + 1;
      }
      return None;
    }

    /** `getPrice`, over the source objects. `lastValidPrice` is only ever
        assigned right before a return, so within the loop it stays null. */
    method GetPrice(currency: string, net: Network, now: int, faulty: set<Callback>) returns (r: Result<Quote, Error>)
      requires Valid()
      modifies this, sources
      ensures Valid()
      ensures var l := Resolve(old(States()), old(failures), currency, net, now);
              && r == l.result && States() == l.sources && failures == l.failures
              && subscribers == old(subscribers)
              && deliveries == old(deliveries) + Notified(l, subscribers, currency, faulty)
    {
      if currency !in Supported {
        r := Failure(UnsupportedCurrency(currency));
        return;
      }
      if IsStable(currency) {
        r := Success(Quote(1.0, now, "default"));
        return;
      }
      ghost var goal := Walk(old(States()), old(failures), currency, ServeFrom(currency, net, now), now, 0, None, None);
      assert goal == Resolve(old(States()), old(failures), currency, net, now);
      var lastError: Option<Error> := None;
      var lastValidPrice: Option<Quote> := None;
      var i := 0;
      while i < |sources|
        invariant 0 <= i <= |sources|
        invariant Valid()
        invariant subscribers == old(subscribers) && deliveries == old(deliveries)
        invariant goal == Walk(States(), failures, currency, ServeFrom(currency, net, now), now, i, lastError, lastValidPrice)
      {
        var done;
        done, r, lastError := TrySource(i, currency, net, now, faulty, lastError, lastValidPrice);
        if done {
          return;
        }
        i := i + 1;
      }
      ghost var final := States();
      assert goal == Exhausted(final, failures, currency, lastError);
      var cached := LastResort(currency);
      if cached.Some? {
        r := Success(cached.value);
        return;
      }
      r := Failure(if lastError.Some? then AllSourcesFailed(lastError.value) else NullLastError);
    }

    /** `getAllPrices`: every supported currency in order; a failed lookup
        becomes the default quote for a stablecoin and null otherwise. */
    method GetAllPrices(net: Network, now: int, faulty: set<Callback>) returns (prices: map<string, Option<Quote>>)
      requires Valid()
      modifies this, sources
      ensures Valid()
      ensures subscribers == old(subscribers)
      ensures Sweep(prices, States(), failures, deliveries)
           == AllPrices(Sweep(map[], old(States()), old(failures), old(deliveries)), net, now, subscribers, faulty, |Supported|)
    {
      prices := map[];
      for k := 0 to |Supported|
        invariant Valid()
        invariant subscribers == old(subscribers)
        invariant Sweep(prices, States(), failures, deliveries)
               == AllPrices(Sweep(map[], old(States()), old(failures), old(deliveries)), net, now, subscribers, faulty, k)
      {
        prices := RecordPrice(prices, Supported[k], net, now, faulty);
      }
    }

    /** The body of getAllPrices' loop for one currency. */
    method RecordPrice(prices: map<string, Option<Quote>>, currency: string, net: Network, now: int, faulty: set<Callback>)
      returns (recorded: map<string, Option<Quote>>)
      requires Valid()
      modifies this, sources
      ensures Valid()
      ensures subscribers == old(subscribers)
      ensures Sweep(recorded, States(), failures, deliveries)
           == SweepStep(Sweep(prices, old(States()), old(failures), old(deliveries)), currency, net, now, subscribers, faulty)
    {
      var r := GetPrice(currency, net, now, faulty);
      if r.Success? {
        recorded := prices[currency := Some(r.value)];
      } else if IsStable(currency) {
        recorded := prices[currency := Some(Quote(1.0, now, "default"))];
      } else {
        recorded := prices[currency := None];
      }
    }
  }

  /** Deleting from a duplicate-free list keeps it duplicate-free. */
  lemma {:induction false} UnsubscribedDistinct(subscribers: seq<Callback>, cb: Callback)
    requires NoDuplicates(subscribers)
    ensures NoDuplicates(Unsubscribed(subscribers, cb))
    decreases |subscribers|
  {
    if |subscribers| > 0 {
      var tail := subscribers[1..];
      assert NoDuplicates(tail) by {
        forall a, b | 0 <= a < b < |tail| ensures tail[a] != tail[b] {
          assert tail[a] == subscribers[a + 1] && tail[b] == subscribers[b + 1];
        }
      }
      UnsubscribedDistinct(tail, cb);
      var rest := Unsubscribed(tail, cb);
      if subscribers[0] != cb {
        var head := subscribers[0];
        assert head !in tail by {
          forall j | 0 <= j < |tail| ensures tail[j] != head {
            assert tail[j] == subscribers[j + 1];
          }
        }
        assert head !in rest;
        var r := [head] + rest;
        assert Unsubscribed(subscribers, cb) == r;
        forall a, b | 0 <= a < b < |r| ensures r[a] != r[b] {
          if a == 0 {
            assert r[b] == rest[b - 1] && rest[b - 1] in rest;
          } else {
            assert r[a] == rest[a - 1] && r[b] == rest[b - 1];
          }
        }
      }
    }
  }
}
