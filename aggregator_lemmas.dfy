/** Properties of a getPrice lookup and of getAllPrices, proved about the
    functions that the class PriceManager is proved to follow. */
module AggregatorLemmas {
  import opened Wrappers
  import opened Quotes
  import opened SourceCache
  import Sources
  import CoinGecko
  import KuCoin
  import opened Aggregator

  /** What the lookup relies on from a source's getPrice: it keeps the
      source's provider and every cached currency, stores what it returns,
      and never fails with the outlier guard's own error. */
  ghost predicate ServeLaws(serve: Serve, currency: string) {
    forall s: SourceState {:trigger serve(s)} ::
      && serve(s).1.provider == s.provider
      && s.cache.Keys <= serve(s).1.cache.Keys
      && (serve(s).0.Success? ==> currency in serve(s).1.cache && serve(s).1.cache[currency] == serve(s).0.value)
      && serve(s).0 != Failure(PriceValidationFailed)
  }

  /** No source's getPrice ever fails with the guard's own error. */
  lemma SourcesNeverReject(s: SourceState, currency: string, net: Network, now: int)
    ensures Sources.GetPriceOutcome(s, currency, net, now).0 != Failure(PriceValidationFailed)
  {
    var fetched := Sources.FetchOutcome(s, currency, net, now);
    match s.provider
    case Base(_) =>
    case CoinGecko =>
      assert fetched.0 == CoinGecko.Fetch(s.cache, currency, net, now);
    case KuCoin =>
      assert fetched == KuCoin.Fetch(s, currency, net, now);
  }

  /** The sources of this library obey those laws. */
  lemma SourcesObeyLaws(currency: string, net: Network, now: int)
    ensures ServeLaws(ServeFrom(currency, net, now), currency)
  {
    forall s: SourceState
      ensures var r := ServeFrom(currency, net, now)(s);
              && r.1.provider == s.provider
              && s.cache.Keys <= r.1.cache.Keys
              && (r.0.Success? ==> currency in r.1.cache && r.1.cache[currency] == r.0.value)
              && r.0 != Failure(PriceValidationFailed)
    {
      SourcesNeverReject(s, currency, net, now);
    }
  }

  /** What a turn that asks source i does to the state: only that source's
      state changes, to the one its getPrice leaves; only its counter
      changes, to 0 on an accepted answer and one more otherwise; and a
      returned lookup always succeeds. */
  lemma TurnShape(states: seq<SourceState>, failures: map<string, nat>, currency: string, serve: Serve, now: int,
                  i: nat, lastValid: Option<Quote>)
    requires i < |states| && ServeLaws(serve, currency)
    ensures var t := TurnAt(states, failures, currency, serve, now, i, lastValid);
            var name := Name(states[i].provider);
            var served := serve(states[i]);
            var after := states[i := served.1];
            && after[i].provider == states[i].provider
            && states[i].cache.Keys <= after[i].cache.Keys
            && (t.Skipped? <==> FailureCount(failures, name) >= FailureThreshold)
            && (t.Returned? ==> t.l.result.Success? && t.l.sources == after)
            && (t.Returned? ==> currency in after[i].cache && after[i].cache[currency] == t.l.result.value)
            && (t.Returned? && t.l.notify ==> served.0 == Success(t.l.result.value) && t.l.failures == failures[name := 0])
            && (t.Returned? && !t.l.notify ==> t.l.failures == failures[name := FailureCount(failures, name) + 1])
            && (t.FailedOver? ==>
                  && (lastValid.None? ==> served.0.Failure?)
                  && t.after == after
                  && t.bumped == failures[name := FailureCount(failures, name) + 1]
                  && t.error == (if served.0.Failure? then served.0.error else PriceValidationFailed))
  {
    var served := serve(states[i]);
    assert served.1.provider == states[i].provider;
  }

  /** One turn of getPrice's loop, read off the walk: a suspended source is
      passed over; an accepted answer is returned at once, with the
      source's counter reset and every subscriber notified; a failed or
      rejected answer bumps the counter, and the source's own entry is
      returned exactly when it has one and the freshest entry across all
      sources is under five minutes old; otherwise the loop goes on with
      that error. */
  lemma WalkStep(states: seq<SourceState>, failures: map<string, nat>, currency: string, serve: Serve, now: int,
                 i: nat, lastError: Option<Error>, lastValid: Option<Quote>)
    requires i < |states| && ServeLaws(serve, currency)
    ensures var name := Name(states[i].provider);
            var served := serve(states[i]);
            var after := states[i := served.1];
            var bumped := failures[name := FailureCount(failures, name) + 1];
            var error := if served.0.Failure? then served.0.error else PriceValidationFailed;
            var l := Walk(states, failures, currency, serve, now, i, lastError, lastValid);
            && (FailureCount(failures, name) >= FailureThreshold ==>
                  l == Walk(states, failures, currency, serve, now, i + 1, lastError, lastValid))
            && (FailureCount(failures, name) < FailureThreshold && Accepted(served.0, lastValid) ==>
                  l == Outcome(Success(served.0.value), after, failures[name := 0], true))
            && (FailureCount(failures, name) < FailureThreshold && !Accepted(served.0, lastValid) ==>
                  l == if currency in served.1.cache && IsFresh(PriceAge(after, currency, now))
                       then Outcome(Success(served.1.cache[currency]), after, bumped, false)
                       else Walk(after, bumped, currency, serve, now, i + 1, Some(error), lastValid))
  {
    var served := serve(states[i]);
    assert served.1.provider == states[i].provider;
  }

  /** The fresh-cache test looks at the freshest entry of ANY source, but
      returns the failing source's own entry: once some source holds an
      entry stamped less than five minutes ago, a failed source's entry is
      returned however old it is. */
  lemma FailOverIgnoresOwnAge(after: seq<SourceState>, failures: map<string, nat>, currency: string, now: int,
                              i: nat, j: nat, error: Error)
    requires i < |after| && j < |after|
    requires currency in after[i].cache && currency in after[j].cache
    requires 0 < after[j].cache[currency].timestamp && now - after[j].cache[currency].timestamp < MaxAge
    ensures var t := FailOver(after, failures, currency, now, i, error);
            t.Returned? && t.l.result == Success(after[i].cache[currency])
  {
    MostRecentBounds(after, currency, |after|);
  }

  /** An instance: CoinGecko fails for BTC while its own BTC entry was
      stamped at 1000 and KuCoin's at 1000000. At 1000001 the CoinGecko
      entry, 999001 ms old, is returned as a fresh answer. */
  lemma StaleEntryServedAsFresh(gecko: real, kucoin: real, failures: map<string, nat>, error: Error)
    ensures var old_ := Quote(gecko, 1000, "CoinGecko");
            var after := [SourceState(CoinGecko, map[BTC := old_], None),
                          SourceState(KuCoin, map[BTC := Quote(kucoin, 1000000, "KuCoin")], None)];
            var t := FailOver(after, failures, BTC, 1000001, 0, error);
            && t.Returned? && t.l.result == Success(old_)
            && 1000001 - old_.timestamp > MaxAge
  {
    var after := [SourceState(CoinGecko, map[BTC := Quote(gecko, 1000, "CoinGecko")], None),
                  SourceState(KuCoin, map[BTC := Quote(kucoin, 1000000, "KuCoin")], None)];
    FailOverIgnoresOwnAge(after, failures, BTC, 1000001, 0, 1, error);
  }

  /** `lastValidPrice` is only assigned right before getPrice returns, so
      within the loop it is always null and the outlier guard never fires:
      the first source asked that answers is returned from, with its
      counter reset and the subscribers notified, and no lookup fails with
      a price-validation error. */
  lemma {:induction false} GuardNeverFires(states: seq<SourceState>, failures: map<string, nat>, currency: string,
                                           serve: Serve, now: int, i: nat, lastError: Option<Error>)
    requires i <= |states| && ServeLaws(serve, currency)
    requires lastError != Some(PriceValidationFailed)
    ensures i < |states| && FailureCount(failures, Name(states[i].provider)) < FailureThreshold && serve(states[i]).0.Success? ==>
              Walk(states, failures, currency, serve, now, i, lastError, None)
                == Outcome(serve(states[i]).0, states[i := serve(states[i]).1], failures[Name(states[i].provider) := 0], true)
    ensures Walk(states, failures, currency, serve, now, i, lastError, None).result != Failure(AllSourcesFailed(PriceValidationFailed))
    decreases |states| - i
  {
    if i < |states| {
      WalkStep(states, failures, currency, serve, now, i, lastError, None);
      TurnShape(states, failures, currency, serve, now, i, None);
      match TurnAt(states, failures, currency, serve, now, i, None)
      case Skipped =>
        GuardNeverFires(states, failures, currency, serve, now, i + 1, lastError);
      case Returned(_) =>
      case FailedOver(after, bumped, error) =>
        GuardNeverFires(after, bumped, currency, serve, now, i + 1, Some(error));
    }
  }

  /** An unsupported currency fails at once and a stablecoin answers 1.0
      from "default": no source is asked, no counter moves, nobody is
      notified. */
  lemma ShortCircuits(states: seq<SourceState>, failures: map<string, nat>, currency: string, net: Network, now: int)
    requires currency !in Supported || IsStable(currency)
    ensures var l := Resolve(states, failures, currency, net, now);
            && l.sources == states && l.failures == failures && !l.notify
            && (currency !in Supported ==> l.result == Failure(UnsupportedCurrency(currency)))
            && (currency in Supported ==> l.result == Success(Quote(1.0, now, "default")))
  {
  }

  /** getPrice never fails because of the outlier guard. */
  lemma OutlierGuardInert(states: seq<SourceState>, failures: map<string, nat>, currency: string, net: Network, now: int)
    ensures Resolve(states, failures, currency, net, now).result != Failure(AllSourcesFailed(PriceValidationFailed))
  {
    if currency in Supported && !IsStable(currency) {
      SourcesObeyLaws(currency, net, now);
      GuardNeverFires(states, failures, currency, ServeFrom(currency, net, now), now, 0, None);
    }
  }

  /** A source's getPrice never drops a currency from its cache. */
  lemma KeysKept(states: seq<SourceState>, i: nat, after: seq<SourceState>, currency: string)
    requires i < |states| == |after| && after == states[i := after[i]] && states[i].cache.Keys <= after[i].cache.Keys
    requires exists j :: 0 <= j < |states| && currency in states[j].cache
    ensures exists j :: 0 <= j < |after| && currency in after[j].cache
  {
    var j :| 0 <= j < |states| && currency in states[j].cache;
    assert currency in after[j].cache;
  }

  /** When any source holds an entry for the currency, however old, the
      walk over the sources cannot fail: every turn either returns or keeps
      that entry, and the last-resort scan finds it. */
  lemma {:induction false} CachedWalkSucceeds(states: seq<SourceState>, failures: map<string, nat>, currency: string,
                                              serve: Serve, now: int, i: nat, lastError: Option<Error>, lastValid: Option<Quote>)
    requires i <= |states| && ServeLaws(serve, currency)
    requires exists j :: 0 <= j < |states| && currency in states[j].cache
    ensures Walk(states, failures, currency, serve, now, i, lastError, lastValid).result.Success?
    decreases |states| - i
  {
    if i < |states| {
      TurnShape(states, failures, currency, serve, now, i, lastValid);
      match TurnAt(states, failures, currency, serve, now, i, lastValid)
      case Skipped =>
        CachedWalkSucceeds(states, failures, currency, serve, now, i + 1, lastError, lastValid);
      case Returned(_) =>
      case FailedOver(after, bumped, error) =>
        KeysKept(states, i, after, currency);
        CachedWalkSucceeds(after, bumped, currency, serve, now, i + 1, Some(error), lastValid);
    } else {
      FirstCachedFinds(states, currency);
    }
  }

  /** getPrice fails for a supported currency only when no source held any
      entry for it. */
  lemma CachedNeverFails(states: seq<SourceState>, failures: map<string, nat>, currency: string, net: Network, now: int)
    requires currency in Supported
    requires exists j :: 0 <= j < |states| && currency in states[j].cache
    ensures Resolve(states, failures, currency, net, now).result.Success?
  {
    if !IsStable(currency) {
      SourcesObeyLaws(currency, net, now);
      CachedWalkSucceeds(states, failures, currency, ServeFrom(currency, net, now), now, 0, None, None);
    }
  }

  /** Every quote a walk returns sits in some source's cache afterwards:
      it was just stored, served from cache, or found by the last-resort
      scan. */
  lemma {:induction false} WalkQuoteCached(states: seq<SourceState>, failures: map<string, nat>, currency: string,
                                           serve: Serve, now: int, i: nat, lastError: Option<Error>, lastValid: Option<Quote>)
    requires i <= |states| && ServeLaws(serve, currency)
    ensures var l := Walk(states, failures, currency, serve, now, i, lastError, lastValid);
            l.result.Success? ==>
              exists j :: 0 <= j < |l.sources| && currency in l.sources[j].cache && l.sources[j].cache[currency] == l.result.value
    decreases |states| - i
  {
    if i < |states| {
      TurnShape(states, failures, currency, serve, now, i, lastValid);
      match TurnAt(states, failures, currency, serve, now, i, lastValid)
      case Skipped =>
        WalkQuoteCached(states, failures, currency, serve, now, i + 1, lastError, lastValid);
      case Returned(l) =>
        assert currency in l.sources[i].cache && l.sources[i].cache[currency] == l.result.value;
      case FailedOver(after, bumped, error) =>
        WalkQuoteCached(after, bumped, currency, serve, now, i + 1, Some(error), lastValid);
    } else {
      FirstCachedFinds(states, currency);
    }
  }

  /** Apart from the stablecoins' fixed answer, every quote getPrice returns
      is held in some source's cache when it returns. */
  lemma ReturnedQuoteIsCached(states: seq<SourceState>, failures: map<string, nat>, currency: string, net: Network, now: int)
    requires !IsStable(currency)
    ensures var l := Resolve(states, failures, currency, net, now);
            l.result.Success? ==>
              exists j :: 0 <= j < |l.sources| && currency in l.sources[j].cache && l.sources[j].cache[currency] == l.result.value
  {
    if currency in Supported {
      SourcesObeyLaws(currency, net, now);
      WalkQuoteCached(states, failures, currency, ServeFrom(currency, net, now), now, 0, None, None);
    }
  }

  /** A notified quote was just served by a source that accepted it: that
      source's counter is back to 0 and the quote is in its cache. */
  lemma {:induction false} NotifiedSourceReset(states: seq<SourceState>, failures: map<string, nat>, currency: string,
                                               serve: Serve, now: int, i: nat, lastError: Option<Error>, lastValid: Option<Quote>)
    requires i <= |states| && ServeLaws(serve, currency)
    ensures var l := Walk(states, failures, currency, serve, now, i, lastError, lastValid);
            l.notify ==>
              exists j :: && i <= j < |states|
                          && FailureCount(l.failures, Name(states[j].provider)) == 0
                          && currency in l.sources[j].cache && l.sources[j].cache[currency] == l.result.value
    decreases |states| - i
  {
    if i < |states| {
      TurnShape(states, failures, currency, serve, now, i, lastValid);
      match TurnAt(states, failures, currency, serve, now, i, lastValid)
      case Skipped =>
        NotifiedSourceReset(states, failures, currency, serve, now, i + 1, lastError, lastValid);
      case Returned(l) =>
        if l.notify {
          assert FailureCount(l.failures, Name(states[i].provider)) == 0;
          assert currency in l.sources[i].cache && l.sources[i].cache[currency] == l.result.value;
        }
      case FailedOver(after, bumped, error) =>
        NotifiedSourceReset(after, bumped, currency, serve, now, i + 1, Some(error), lastValid);
        NotifiedCarried(states, after, i, Walk(after, bumped, currency, serve, now, i + 1, Some(error), lastValid), currency);
    }
  }

  /** A source from i + 1 on that accepted the quote is one from i on when
      only source i changed. */
  lemma NotifiedCarried(states: seq<SourceState>, after: seq<SourceState>, i: nat, l: Outcome, currency: string)
    requires i < |states| == |after| == |l.sources| && after == states[i := after[i]]
    requires l.notify ==> l.result.Success?
    requires l.notify ==>
               exists j :: && i + 1 <= j < |after|
                           && FailureCount(l.failures, Name(after[j].provider)) == 0
                           && currency in l.sources[j].cache && l.sources[j].cache[currency] == l.result.value
    ensures l.notify ==>
              exists j :: && i <= j < |states|
                          && FailureCount(l.failures, Name(states[j].provider)) == 0
                          && currency in l.sources[j].cache && l.sources[j].cache[currency] == l.result.value
  {
    if l.notify {
      var j :| && i + 1 <= j < |after|
               && FailureCount(l.failures, Name(after[j].provider)) == 0
               && currency in l.sources[j].cache && l.sources[j].cache[currency] == l.result.value;
      assert after[j] == states[j];
    }
  }

  /** A notified getPrice result was accepted from a source whose counter is
      now 0, and it is in that source's cache. */
  lemma NotifiedQuoteFresh(states: seq<SourceState>, failures: map<string, nat>, currency: string, net: Network, now: int)
    ensures var l := Resolve(states, failures, currency, net, now);
            l.notify ==>
              exists j :: && 0 <= j < |states|
                          && FailureCount(l.failures, Name(states[j].provider)) == 0
                          && currency in l.sources[j].cache && l.sources[j].cache[currency] == l.result.value
  {
    if currency in Supported && !IsStable(currency) {
      SourcesObeyLaws(currency, net, now);
      NotifiedSourceReset(states, failures, currency, ServeFrom(currency, net, now), now, 0, None, None);
    }
  }

  /** Renaming nothing: a walk's states keep the sources' names. */
  lemma NamesKept(states: seq<SourceState>, i: nat, s: SourceState)
    requires i < |states| && s.provider == states[i].provider && DistinctNames(states)
    ensures DistinctNames(states[i := s])
  {
    var after := states[i := s];
    forall a, b | 0 <= a < b < |after| ensures Name(after[a].provider) != Name(after[b].provider) {
      assert after[a].provider == states[a].provider && after[b].provider == states[b].provider;
    }
  }

  /** A source at or over the threshold is neither asked nor has its counter
      touched, whatever the other sources do (names are distinct, so no
      other source shares its counter). */
  lemma {:induction false} SuspendedSourceUntouched(states: seq<SourceState>, failures: map<string, nat>, currency: string,
                                                    serve: Serve, now: int, i: nat, lastError: Option<Error>,
                                                    lastValid: Option<Quote>, j: nat)
    requires i <= |states| && j < |states| && DistinctNames(states) && ServeLaws(serve, currency)
    requires FailureCount(failures, Name(states[j].provider)) >= FailureThreshold
    ensures var l := Walk(states, failures, currency, serve, now, i, lastError, lastValid);
            l.sources[j] == states[j] && FailureCount(l.failures, Name(states[j].provider)) == FailureCount(failures, Name(states[j].provider))
    decreases |states| - i
  {
    if i < |states| {
      TurnShape(states, failures, currency, serve, now, i, lastValid);
      match TurnAt(states, failures, currency, serve, now, i, lastValid)
      case Skipped =>
        SuspendedSourceUntouched(states, failures, currency, serve, now, i + 1, lastError, lastValid, j);
      case Returned(l) =>
        assert i != j && Name(states[i].provider) != Name(states[j].provider);
      case FailedOver(after, bumped, error) =>
        var n := Name(states[j].provider);
        assert i != j && Name(states[i].provider) != n;
        assert after[j] == states[j] && FailureCount(bumped, n) == FailureCount(failures, n);
        NamesKept(states, i, serve(states[i]).1);
        SuspendedSourceUntouched(after, bumped, currency, serve, now, i + 1, Some(error), lastValid, j);
    }
  }

  /** A name that no source from i on has is not the name of any source
      from i + 1 on once source i's state has changed. */
  lemma UnlistedLater(states: seq<SourceState>, after: seq<SourceState>, i: nat, n: string)
    requires i < |states| == |after| && after == states[i := after[i]]
    requires forall k :: i <= k < |states| ==> Name(states[k].provider) != n
    ensures forall k :: i + 1 <= k < |after| ==> Name(after[k].provider) != n
  {
    forall k | i + 1 <= k < |after| ensures Name(after[k].provider) != n {
      assert after[k] == states[k];
    }
  }

  /** A counter whose name belongs to none of the sources from i on is
      left as it was. */
  lemma {:induction false} UnlistedCounterKept(states: seq<SourceState>, failures: map<string, nat>, currency: string,
                                               serve: Serve, now: int, i: nat, lastError: Option<Error>,
                                               lastValid: Option<Quote>, n: string)
    requires i <= |states| && ServeLaws(serve, currency)
    requires forall k :: i <= k < |states| ==> Name(states[k].provider) != n
    ensures FailureCount(Walk(states, failures, currency, serve, now, i, lastError, lastValid).failures, n) == FailureCount(failures, n)
    decreases |states| - i
  {
    if i < |states| {
      TurnShape(states, failures, currency, serve, now, i, lastValid);
      match TurnAt(states, failures, currency, serve, now, i, lastValid)
      case Skipped =>
        UnlistedCounterKept(states, failures, currency, serve, now, i + 1, lastError, lastValid, n);
      case Returned(l) =>
      case FailedOver(after, bumped, error) =>
        UnlistedLater(states, after, i, n);
        UnlistedCounterKept(after, bumped, currency, serve, now, i + 1, Some(error), lastValid, n);
    }
  }

  /** With distinct names, the name of source i belongs to no later source,
      also after source i's state has changed. */
  lemma NameNotLater(states: seq<SourceState>, after: seq<SourceState>, i: nat)
    requires i < |states| == |after| && after == states[i := after[i]] && DistinctNames(states)
    ensures forall k :: i + 1 <= k < |after| ==> Name(after[k].provider) != Name(states[i].provider)
  {
    forall k | i + 1 <= k < |after| ensures Name(after[k].provider) != Name(states[i].provider) {
      assert after[k] == states[k];
    }
  }

  /** In one lookup each counter either stays, is reset to 0, or goes up by
      exactly one (names are distinct, so no counter is bumped twice). */
  lemma {:induction false} CountersMoveByOne(states: seq<SourceState>, failures: map<string, nat>, currency: string,
                                             serve: Serve, now: int, i: nat, lastError: Option<Error>,
                                             lastValid: Option<Quote>, n: string)
    requires i <= |states| && DistinctNames(states) && ServeLaws(serve, currency)
    ensures var before := FailureCount(failures, n);
            var after := FailureCount(Walk(states, failures, currency, serve, now, i, lastError, lastValid).failures, n);
            after == before || after == 0 || after == before + 1
    decreases |states| - i
  {
    if i < |states| {
      TurnShape(states, failures, currency, serve, now, i, lastValid);
      match TurnAt(states, failures, currency, serve, now, i, lastValid)
      case Skipped =>
        CountersMoveByOne(states, failures, currency, serve, now, i + 1, lastError, lastValid, n);
      case Returned(l) =>
      case FailedOver(after, bumped, error) =>
        if n == Name(states[i].provider) {
          NameNotLater(states, after, i);
          UnlistedCounterKept(after, bumped, currency, serve, now, i + 1, Some(error), lastValid, n);
        } else {
          NamesKept(states, i, serve(states[i]).1);
          CountersMoveByOne(after, bumped, currency, serve, now, i + 1, Some(error), lastValid, n);
        }
    }
  }

  /** When every source is suspended, getPrice asks none of them and falls
      straight through to the last-resort scan; with no entry anywhere it
      fails on `lastError.message` with `lastError` still null. */
  lemma {:induction false} AllSuspended(states: seq<SourceState>, failures: map<string, nat>, currency: string,
                                        serve: Serve, now: int, i: nat, lastValid: Option<Quote>)
    requires i <= |states|
    requires forall k :: i <= k < |states| ==> FailureCount(failures, Name(states[k].provider)) >= FailureThreshold
    ensures Walk(states, failures, currency, serve, now, i, None, lastValid) == Exhausted(states, failures, currency, None)
    ensures (forall k :: 0 <= k < |states| ==> currency !in states[k].cache) ==>
              Walk(states, failures, currency, serve, now, i, None, lastValid).result == Failure(NullLastError)
    decreases |states| - i
  {
    if i < |states| {
      AllSuspended(states, failures, currency, serve, now, i + 1, lastValid);
    } else {
      FirstCachedFinds(states, currency);
    }
  }

  /** getAllPrices records every supported currency; the stablecoins always
      get the default quote, and only BTC or NIM can be null. */
  lemma {:induction false} AllPricesEntries(start: Sweep, net: Network, now: int, subscribers: seq<Callback>,
                                            faulty: set<Callback>, k: nat)
    requires k <= |Supported|
    ensures var w := AllPrices(start, net, now, subscribers, faulty, k);
            && (forall c :: c in Supported[..k] ==> c in w.prices)
            && (forall c :: c in Supported[..k] && IsStable(c) ==> w.prices[c] == Some(Quote(1.0, now, "default")))
            && (forall c :: c in w.prices && c !in start.prices ==> c in Supported[..k])
            && (forall c :: c in Supported[..k] && w.prices[c].None? ==> c == BTC || c == NIM)
    decreases k
  {
    if k > 0 {
      AllPricesEntries(start, net, now, subscribers, faulty, k - 1);
      assert Supported[..k] == Supported[..k - 1] + [Supported[k - 1]];
    }
  }

  /** No source holds an entry for the currency. */
  predicate NoneHeld(states: seq<SourceState>, currency: string) {
    forall j :: 0 <= j < |states| ==> currency !in states[j].cache
  }

  /** A walk never drops a cached currency from any source. */
  lemma {:induction false} WalkKeepsKeys(states: seq<SourceState>, failures: map<string, nat>, currency: string,
                                         serve: Serve, now: int, i: nat, lastError: Option<Error>, lastValid: Option<Quote>)
    requires i <= |states| && ServeLaws(serve, currency)
    ensures var l := Walk(states, failures, currency, serve, now, i, lastError, lastValid);
            forall j :: 0 <= j < |states| ==> states[j].cache.Keys <= l.sources[j].cache.Keys
    decreases |states| - i
  {
    if i < |states| {
      TurnShape(states, failures, currency, serve, now, i, lastValid);
      match TurnAt(states, failures, currency, serve, now, i, lastValid)
      case Skipped =>
        WalkKeepsKeys(states, failures, currency, serve, now, i + 1, lastError, lastValid);
      case Returned(l) =>
        forall j | 0 <= j < |states| ensures states[j].cache.Keys <= l.sources[j].cache.Keys {
          if j != i { assert l.sources[j] == states[j]; }
        }
      case FailedOver(after, bumped, error) =>
        WalkKeepsKeys(after, bumped, currency, serve, now, i + 1, Some(error), lastValid);
        forall j | 0 <= j < |states| ensures states[j].cache.Keys <= after[j].cache.Keys {
          if j != i { assert after[j] == states[j]; }
        }
    }
  }

  /** getPrice never drops a cached currency from any source. */
  lemma ResolveKeepsKeys(states: seq<SourceState>, failures: map<string, nat>, currency: string, net: Network, now: int)
    ensures var l := Resolve(states, failures, currency, net, now);
            forall j :: 0 <= j < |states| ==> states[j].cache.Keys <= l.sources[j].cache.Keys
  {
    if currency in Supported && !IsStable(currency) {
      SourcesObeyLaws(currency, net, now);
      WalkKeepsKeys(states, failures, currency, ServeFrom(currency, net, now), now, 0, None, None);
    }
  }

  /** One iteration of getAllPrices: a successful lookup's quote is what is
      recorded; the entry is null exactly when the lookup of a currency
      other than the stablecoins failed; no other entry changes. */
  lemma SweepStepRecords(w: Sweep, currency: string, net: Network, now: int, subscribers: seq<Callback>, faulty: set<Callback>)
    ensures var l := Resolve(w.sources, w.failures, currency, net, now);
            var v := SweepStep(w, currency, net, now, subscribers, faulty);
            && currency in v.prices
            && (l.result.Success? ==> v.prices[currency] == Some(l.result.value))
            && (v.prices[currency].None? <==> l.result.Failure? && !IsStable(currency))
            && v.sources == l.sources && v.failures == l.failures
            && (forall c :: c != currency ==> (c in v.prices <==> c in w.prices))
            && (forall c :: c != currency && c in w.prices ==> v.prices[c] == w.prices[c])
  {
  }

  /** getAllPrices never drops a cached currency from any source. */
  lemma {:induction false} AllPricesKeepsKeys(start: Sweep, net: Network, now: int, subscribers: seq<Callback>,
                                              faulty: set<Callback>, k: nat)
    requires k <= |Supported|
    ensures var w := AllPrices(start, net, now, subscribers, faulty, k);
            forall j :: 0 <= j < |start.sources| ==> start.sources[j].cache.Keys <= w.sources[j].cache.Keys
    decreases k
  {
    if k > 0 {
      AllPricesKeepsKeys(start, net, now, subscribers, faulty, k - 1);
      var prev := AllPrices(start, net, now, subscribers, faulty, k - 1);
      ResolveKeepsKeys(prev.sources, prev.failures, Supported[k - 1], net, now);
    }
  }

  /** getAllPrices records null for a currency only when no source held any
      entry for it when the sweep began (or it was already null then): a
      cached entry of any age makes that currency's lookup succeed, and the
      sweep never drops one. */
  lemma {:induction false} NullMeansNeverCached(start: Sweep, net: Network, now: int, subscribers: seq<Callback>,
                                                faulty: set<Callback>, k: nat)
    requires k <= |Supported|
    ensures var w := AllPrices(start, net, now, subscribers, faulty, k);
            forall c :: c in w.prices && w.prices[c].None? ==>
              (c in start.prices && start.prices[c].None?) || NoneHeld(start.sources, c)
    decreases k
  {
    if k > 0 {
      NullMeansNeverCached(start, net, now, subscribers, faulty, k - 1);
      var prev := AllPrices(start, net, now, subscribers, faulty, k - 1);
      var w := AllPrices(start, net, now, subscribers, faulty, k);
      var currency := Supported[k - 1];
      SweepStepRecords(prev, currency, net, now, subscribers, faulty);
      if currency in w.prices && w.prices[currency].None? {
        assert NoneHeld(prev.sources, currency) by {
          if !NoneHeld(prev.sources, currency) {
            CachedNeverFails(prev.sources, prev.failures, currency, net, now);
          }
        }
        AllPricesKeepsKeys(start, net, now, subscribers, faulty, k - 1);
        forall j | 0 <= j < |start.sources| ensures currency !in start.sources[j].cache {
          assert currency !in prev.sources[j].cache;
        }
      }
    }
  }

  /** Deleting a callback that is not subscribed changes nothing. */
  lemma {:induction false} UnsubscribedAbsent(subscribers: seq<Callback>, cb: Callback)
    requires cb !in subscribers
    ensures Unsubscribed(subscribers, cb) == subscribers
    decreases |subscribers|
  {
    if |subscribers| > 0 {
      assert subscribers[1..] + [] == subscribers[1..];
      UnsubscribedAbsent(subscribers[1..], cb);
      assert [subscribers[0]] + subscribers[1..] == subscribers;
    }
  }

  /** Deletion works piecewise: it keeps the order of the callbacks it keeps. */
  lemma {:induction false} UnsubscribedConcat(front: seq<Callback>, back: seq<Callback>, cb: Callback)
    ensures Unsubscribed(front + back, cb) == Unsubscribed(front, cb) + Unsubscribed(back, cb)
    decreases |front|
  {
    if |front| == 0 {
      assert front + back == back;
    } else {
      assert (front + back)[1..] == front[1..] + back;
      UnsubscribedConcat(front[1..], back, cb);
    }
  }

  /** The unsubscribe function undoes a subscription of a new callback. */
  lemma SubscribeThenUnsubscribe(subscribers: seq<Callback>, cb: Callback)
    requires cb !in subscribers
    ensures Unsubscribed(Subscribed(subscribers, cb), cb) == subscribers
  {
    UnsubscribedConcat(subscribers, [cb], cb);
    UnsubscribedAbsent(subscribers, cb);
    assert Unsubscribed([cb], cb) == [];
  }
}
