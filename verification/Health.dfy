/** Portfolio data health: price quality, freshness, and the merge of an exchange snapshot into them. */
module Health {
  import opened Collections
  import Exchange

  // ---------- Price quality ----------

  datatype Source = Coingecko | BinanceUsdt | Frankfurter | ManualEntry | StaticDev | UnknownSource

  const PRICE_SOURCE_ORDER: seq<Source> :=
    [Coingecko, BinanceUsdt, Frankfurter, ManualEntry, StaticDev, UnknownSource]

  datatype Observation = Observation(amount: real, priceUsd: Option<real>, source: Option<string>)

  datatype QualityState = Complete | Estimated | Incomplete | UnknownQuality

  datatype Quality = Quality(state: QualityState, sources: seq<Source>, assetsPriced: int, assetsTotal: int)

  function NormalizeSource(source: Option<string>): Source {
    if source.None? then UnknownSource
    else if source.value == "coingecko" then Coingecko
    else if source.value == "binance_usdt" then BinanceUsdt
    else if source.value == "frankfurter" then Frankfurter
    else if source.value == "manual" then ManualEntry
    else if source.value == "static_dev" then StaticDev
    else UnknownSource
  }

  function QualityOf(priced: int, total: int, sources: set<Source>): QualityState {
    if total == 0 then UnknownQuality
    else if priced < total then Incomplete
    else if StaticDev in sources then Estimated
    else if UnknownSource in sources then UnknownQuality
    else Complete
  }

  function Among(sources: set<Source>): Source -> bool {
    (s: Source) => s in sources
  }

  function InOrder(sources: set<Source>): seq<Source> {
    Filter(Among(sources), PRICE_SOURCE_ORDER)
  }

  function Relevant(): Observation -> bool {
    (o: Observation) => o.amount != 0.0
  }

  function Priced(): Observation -> bool {
    (o: Observation) => o.priceUsd.Some?
  }

  function SourcesOf(observations: seq<Observation>): set<Source> {
    set o | o in observations :: NormalizeSource(o.source)
  }

  /** `portfolio_price_quality` */
  function PriceQuality(observations: seq<Observation>): Quality {
    var relevant := Filter(Relevant(), observations);
    var priced := |Filter(Priced(), relevant)|;
    Quality(QualityOf(priced, |relevant|, SourcesOf(relevant)), InOrder(SourcesOf(relevant)), priced, |relevant|)
  }

  ghost predicate AllPriced(observations: seq<Observation>) {
    forall o :: o in observations && o.amount != 0.0 ==> o.priceUsd.Some?
  }

  ghost predicate HasSource(observations: seq<Observation>, source: Source) {
    exists o :: o in observations && o.amount != 0.0 && NormalizeSource(o.source) == source
  }

  ghost predicate SomeHeld(observations: seq<Observation>) {
    exists o :: o in observations && o.amount != 0.0
  }

  /** What the four states say about the assets actually held, those with an amount other than zero. */
  lemma QualityMeaning(observations: seq<Observation>)
    ensures var q := PriceQuality(observations);
            && 0 <= q.assetsPriced <= q.assetsTotal
            && (q.assetsPriced == q.assetsTotal <==> AllPriced(observations))
            && (q.state == Incomplete <==> !AllPriced(observations))
            && (q.state == Estimated <==>
                  SomeHeld(observations) && AllPriced(observations) && HasSource(observations, StaticDev))
            && (q.state == UnknownQuality <==>
                  || !SomeHeld(observations)
                  || (AllPriced(observations)
                      && !HasSource(observations, StaticDev) && HasSource(observations, UnknownSource)))
            && (q.state == Complete <==>
                  && SomeHeld(observations) && AllPriced(observations)
                  && !HasSource(observations, StaticDev) && !HasSource(observations, UnknownSource))
  {
    var held := Filter(Relevant(), observations);
    CountAll(Priced(), held);
    assert SomeHeld(observations) <==> held != [] by {
      assert held == [] || held[0] in held;
    }
    assert AllPriced(observations) <==> |Filter(Priced(), held)| == |held|;
    assert HasSource(observations, StaticDev) <==> StaticDev in SourcesOf(held);
    assert HasSource(observations, UnknownSource) <==> UnknownSource in SourcesOf(held);
  }

  /** An observation adds to the total exactly when its amount is not zero, and then to the priced ones exactly when
      it has a price. */
  lemma {:induction false} CountMeaning(observations: seq<Observation>, o: Observation)
    ensures PriceQuality([]).assetsTotal == 0 && PriceQuality([]).assetsPriced == 0
    ensures PriceQuality(observations + [o]).assetsTotal
            == PriceQuality(observations).assetsTotal + (if o.amount != 0.0 then 1 else 0)
    ensures PriceQuality(observations + [o]).assetsPriced
            == PriceQuality(observations).assetsPriced + (if o.amount != 0.0 && o.priceUsd != None then 1 else 0)
  {
    var held := Filter(Relevant(), observations);
    OneMoreCounted(observations, held, o);
    assert Filter(Relevant(), []) == [];
  }

  lemma OneMoreCounted(observations: seq<Observation>, held: seq<Observation>, o: Observation)
    requires held == Filter(Relevant(), observations)
    ensures |Filter(Relevant(), observations + [o])| == |held| + (if o.amount != 0.0 then 1 else 0)
    ensures |Filter(Priced(), Filter(Relevant(), observations + [o]))|
            == |Filter(Priced(), held)| + (if o.amount != 0.0 && o.priceUsd != None then 1 else 0)
  {
    FilterSnoc(Relevant(), observations, o);
    FilterSnoc(Priced(), held, o);
    assert held + [] == held;
  }

  /** The place of a source in the listed order. */
  function Place(source: Source): nat {
    match source
    case Coingecko => 0
    case BinanceUsdt => 1
    case Frankfurter => 2
    case ManualEntry => 3
    case StaticDev => 4
    case UnknownSource => 5
  }

  /** The sources of the held assets, each once, in the fixed order. */
  lemma SourcesMeaning(observations: seq<Observation>)
    ensures var sources := PriceQuality(observations).sources;
            && (forall source :: source in sources <==> HasSource(observations, source))
            && (forall i, j :: 0 <= i < j < |sources| ==> Place(sources[i]) < Place(sources[j]))
  {
    var found := SourcesOf(Filter(Relevant(), observations));
    var sources := PriceQuality(observations).sources;
    InOrderContents(found);
    SameElements(sources, found);
    OrderIsInPlace();
    InOrderPlaces(found, PRICE_SOURCE_ORDER, sources);
    forall source ensures source in found <==> HasSource(observations, source) {
    }
  }

  function InPlace(): (Source, Source) -> bool {
    (x: Source, y: Source) => Place(x) < Place(y)
  }

  lemma OrderIsInPlace()
    ensures Chain(InPlace(), PRICE_SOURCE_ORDER)
  {
    forall i, j | 0 <= i < j < |PRICE_SOURCE_ORDER| ensures InPlace()(PRICE_SOURCE_ORDER[i], PRICE_SOURCE_ORDER[j]) {
      assert forall k :: 0 <= k < 6 ==> Place(PRICE_SOURCE_ORDER[k]) == k;
    }
  }

  lemma FilteredInPlace(found: set<Source>, order: seq<Source>)
    requires Chain(InPlace(), order)
    ensures var kept := Filter(Among(found), order);
            forall i, j :: 0 <= i < j < |kept| ==> Place(kept[i]) < Place(kept[j])
  {
    var kept := Filter(Among(found), order);
    FilterChain(Among(found), InPlace(), order);
    forall i, j | 0 <= i < j < |kept| ensures Place(kept[i]) < Place(kept[j]) {
      assert InPlace()(kept[i], kept[j]);
    }
  }

  lemma InOrderPlaces(found: set<Source>, order: seq<Source>, kept: seq<Source>)
    requires Chain(InPlace(), order) && kept == Filter(Among(found), order)
    ensures forall i, j :: 0 <= i < j < |kept| ==> Place(kept[i]) < Place(kept[j])
  {
    FilteredInPlace(found, order);
  }

  lemma SameElements(sources: seq<Source>, found: set<Source>)
    requires (set s | s in sources) == found
    ensures forall source :: source in sources <==> source in found
  {
    forall source ensures source in sources <==> source in found {
      assert source in (set s | s in sources) <==> source in found;
    }
  }

  /** Every known name stands for its source, and anything else, or nothing, for the unknown one. */
  lemma SourceNames()
    ensures NormalizeSource(Some("coingecko")) == Coingecko && NormalizeSource(Some("binance_usdt")) == BinanceUsdt
    ensures NormalizeSource(Some("frankfurter")) == Frankfurter && NormalizeSource(Some("manual")) == ManualEntry
    ensures NormalizeSource(Some("static_dev")) == StaticDev && NormalizeSource(None) == UnknownSource
    ensures forall name :: name !in {"coingecko", "binance_usdt", "frankfurter", "manual", "static_dev"} ==>
              NormalizeSource(Some(name)) == UnknownSource
  {
    assert "coingecko"[0] == 'c' && "binance_usdt"[0] == 'b' && "frankfurter"[0] == 'f';
    assert "manual"[0] == 'm' && "static_dev"[0] == 's';
  }

  lemma {:induction false} CountAll<T(!new)>(keep: T -> bool, s: seq<T>)
    ensures |Filter(keep, s)| <= |s|
    ensures |Filter(keep, s)| == |s| <==> forall x :: x in s ==> keep(x)
  {
    if s != [] {
      CountAll(keep, s[1..]);
      assert s == [s[0]] + s[1..];
    }
  }

  lemma InOrderContents(sources: set<Source>)
    ensures (set s | s in InOrder(sources)) == sources
  {
    forall s ensures s in InOrder(sources) <==> s in sources {
      assert s in PRICE_SOURCE_ORDER by {
        match s
        case Coingecko => assert PRICE_SOURCE_ORDER[0] == s;
        case BinanceUsdt => assert PRICE_SOURCE_ORDER[1] == s;
        case Frankfurter => assert PRICE_SOURCE_ORDER[2] == s;
        case ManualEntry => assert PRICE_SOURCE_ORDER[3] == s;
        case StaticDev => assert PRICE_SOURCE_ORDER[4] == s;
        case UnknownSource => assert PRICE_SOURCE_ORDER[5] == s;
      }
    }
  }

  // ---------- Freshness ----------

  datatype Freshness = Fresh | Aging | Stale | UnknownFreshness

  /** `portfolio_freshness`; the age of a future timestamp is zero. */
  function FreshnessAt(asOf: Option<real>, freshSeconds: real, staleSeconds: real, now: real): Freshness {
    if asOf.None? then UnknownFreshness
    else
      var age := if now - asOf.value > 0.0 then now - asOf.value else 0.0;
      if age <= freshSeconds then Fresh else if age <= staleSeconds then Aging else Stale
  }

  /** Fresh up to the first threshold, aging up to the second, stale after; a time in the future is fresh. */
  lemma FreshnessMeaning(asOf: Option<real>, freshSeconds: real, staleSeconds: real, now: real)
    requires 0.0 <= freshSeconds <= staleSeconds
    ensures FreshnessAt(None, freshSeconds, staleSeconds, now) == UnknownFreshness
    ensures asOf.Some? ==>
              var f, age := FreshnessAt(asOf, freshSeconds, staleSeconds, now), now - asOf.value;
              && (f == Fresh <==> age <= freshSeconds)
              && (f == Aging <==> freshSeconds < age <= staleSeconds)
              && (f == Stale <==> staleSeconds < age)
  {
  }

  function Earliest(a: Option<real>, b: Option<real>): (r: Option<real>)
    ensures r == None <==> a == None && b == None
    ensures r == None || r == a || r == b
    ensures r.Some? && a.Some? ==> r.value <= a.value
    ensures r.Some? && b.Some? ==> r.value <= b.value
  {
    if a.None? then b else if b.None? then a else if b.value < a.value then b else a
  }

  function Rank(f: Freshness): int {
    match f
    case UnknownFreshness => 0
    case Fresh => 1
    case Aging => 2
    case Stale => 3
  }

  /** The freshness of the earliest timestamp is the worse of the known freshnesses. */
  lemma FreshnessOfEarliest(a: Option<real>, b: Option<real>, freshSeconds: real, staleSeconds: real, now: real)
    requires freshSeconds < staleSeconds
    ensures var fa := FreshnessAt(a, freshSeconds, staleSeconds, now);
            var fb := FreshnessAt(b, freshSeconds, staleSeconds, now);
            FreshnessAt(Earliest(a, b), freshSeconds, staleSeconds, now) == if Rank(fa) < Rank(fb) then fb else fa
  {
  }

  // ---------- The health record ----------

  datatype HealthState = FreshHealth | Updating | Partial | StaleHealth

  /** The cascade that ends `build_portfolio_data_health`. */
  function Cascade(issues: bool, quality: QualityState, refreshing: bool, missing: bool,
          freshness: Freshness): HealthState {
    if issues || quality == Estimated || quality == Incomplete then Partial
    else if refreshing then Updating
    else if missing then Partial
    else if freshness == Stale then StaleHealth
    else FreshHealth
  }

  /** Issues and lacking prices come first, then a refresh under way, then missing wallets, then age. */
  lemma CascadeMeaning(issues: bool, quality: QualityState, refreshing: bool, missing: bool, freshness: Freshness)
    ensures var state := Cascade(issues, quality, refreshing, missing, freshness);
            var partial := issues || quality == Estimated || quality == Incomplete;
            && (partial ==> state == Partial)
            && (!partial && refreshing ==> state == Updating)
            && (!partial && !refreshing && missing ==> state == Partial)
            && (!partial && !refreshing && !missing && freshness == Stale ==> state == StaleHealth)
            && (!partial && !refreshing && !missing && freshness != Stale ==> state == FreshHealth)
  {
  }

  datatype ExchangeState = ExchangeFresh | ExchangePartial | ExchangeStale | ExchangeUnavailable

  datatype ExchangeHealth = ExchangeHealth(
    state: ExchangeState, freshness: Freshness, asOf: Option<real>, assetsPriced: int, assetsTotal: int)

  datatype Snapshot = Snapshot(status: Exchange.Status, asOf: Option<real>, assets: seq<Exchange.Position>)

  /** What an exchange position contributes to the price observations. */
  function Observed(assets: seq<Exchange.Position>): (r: seq<Observation>)
    ensures |r| == |assets|
    ensures forall i :: 0 <= i < |r| ==>
              r[i] == Observation(assets[i].amount, assets[i].priceUsd, assets[i].priceSource)
  {
    seq(|assets|, i requires 0 <= i < |assets| =>
      Observation(assets[i].amount, assets[i].priceUsd, assets[i].priceSource))
  }

  function HasPrice(): Exchange.Position -> bool {
    (a: Exchange.Position) => a.priceUsd.Some?
  }

  ghost predicate SomeUnpriced(assets: seq<Exchange.Position>) {
    exists a :: a in assets && a.priceUsd.None?
  }

  /** What the exchange's own health says about the snapshot. */
  ghost predicate Reports(health: ExchangeHealth, exchange: Snapshot, freshness: Freshness) {
    && health.freshness == freshness && health.asOf == exchange.asOf
    && health.assetsTotal == |exchange.assets| && health.assetsPriced == |Filter(HasPrice(), exchange.assets)|
    && (health.state == ExchangePartial <==> SomeUnpriced(exchange.assets))
    && (health.state == ExchangeStale <==> !SomeUnpriced(exchange.assets) && freshness == Stale)
    && health.state != ExchangeUnavailable
  }

  class DataHealth {
    var state: HealthState
    var freshness: Freshness
    var asOf: Option<real>
    var missingWallets: nat
    var chainIssues: nat
    var refreshInProgress: bool
    var priceQuality: Quality

    /** The record is the one the cascade yields for these observations and this clock. */
    ghost predicate Summarizes(observations: seq<Observation>, freshSeconds: real, staleSeconds: real, now: real)
      reads this
    {
      && priceQuality == PriceQuality(observations)
      && freshness == FreshnessAt(asOf, freshSeconds, staleSeconds, now)
      && state == Cascade(chainIssues > 0, priceQuality.state, refreshInProgress, missingWallets > 0, freshness)
    }

    /** `as_of` is the oldest automated snapshot; missing wallets are those with no balance source. */
    constructor (snapshotDates: seq<real>, missingWallets: nat, chainIssues: nat, refreshInProgress: bool,
                 observations: seq<Observation>, freshSeconds: real, staleSeconds: real, now: real)
      ensures Summarizes(observations, freshSeconds, staleSeconds, now)
      ensures asOf.None? <==> snapshotDates == []
      ensures asOf.Some? ==> asOf.value in snapshotDates && forall d :: d in snapshotDates ==> asOf.value <= d
      ensures this.missingWallets == missingWallets && this.chainIssues == chainIssues
      ensures this.refreshInProgress == refreshInProgress
    {
      var oldest: Option<real> := None;
      for n := 0 to |snapshotDates|
        invariant oldest.None? <==> n == 0
        invariant oldest.Some? ==>
          oldest.value in snapshotDates && forall i :: 0 <= i < n ==> oldest.value <= snapshotDates[i]
      {
        oldest := Earliest(oldest, Some(snapshotDates[n]));
      }
      var quality := PriceQuality(observations);
      var fresh' := FreshnessAt(oldest, freshSeconds, staleSeconds, now);
      this.asOf, this.freshness, this.priceQuality := oldest, fresh', quality;
      this.missingWallets, this.chainIssues, this.refreshInProgress := missingWallets, chainIssues, refreshInProgress;
      this.state := Cascade(chainIssues > 0, quality.state, refreshInProgress, missingWallets > 0, fresh');
    }

    /** `_merge_exchange_health`: the merged record is the one built from scratch on the combined data. */
    method MergeExchange(exchange: Snapshot, freshSeconds: real, staleSeconds: real, now: real,
                         ghost observations: seq<Observation>)
      returns (health: Option<ExchangeHealth>)
      requires Summarizes(observations, freshSeconds, staleSeconds, now)
      requires exchange.status == Exchange.Success ==> forall a :: a in exchange.assets ==> Exchange.PositionOk(a)
      modifies this
      ensures missingWallets == old(missingWallets) && chainIssues == old(chainIssues)
      ensures refreshInProgress == old(refreshInProgress)
      ensures exchange.status == Exchange.NotConfigured ==>
                health == None && state == old(state) && freshness == old(freshness)
                && asOf == old(asOf) && priceQuality == old(priceQuality)
      ensures exchange.status != Exchange.NotConfigured && exchange.status != Exchange.Success ==>
                health == Some(ExchangeHealth(ExchangeUnavailable, UnknownFreshness, None, 0, 0)) && state == Partial
                && freshness == old(freshness) && asOf == old(asOf) && priceQuality == old(priceQuality)
      ensures exchange.status == Exchange.Success ==>
                && Summarizes(observations + Observed(exchange.assets), freshSeconds, staleSeconds, now)
                && asOf == Earliest(old(asOf), exchange.asOf)
                && health.Some?
                && Reports(health.value, exchange, FreshnessAt(exchange.asOf, freshSeconds, staleSeconds, now))
    {
      if exchange.status == Exchange.NotConfigured { return None; }
      if exchange.status != Exchange.Success {
        state := Partial;
        return Some(ExchangeHealth(ExchangeUnavailable, UnknownFreshness, None, 0, 0));
      }
      var merged := MergeSnapshot(exchange, freshSeconds, staleSeconds, now, observations);
      return Some(merged);
    }

    /** What the merge does with a snapshot that was read successfully. */
    method MergeSnapshot(exchange: Snapshot, freshSeconds: real, staleSeconds: real, now: real,
                         ghost observations: seq<Observation>)
      returns (health: ExchangeHealth)
      requires Summarizes(observations, freshSeconds, staleSeconds, now)
      requires forall a :: a in exchange.assets ==> Exchange.PositionOk(a)
      modifies `asOf, `freshness, `priceQuality, `state
      ensures Summarizes(observations + Observed(exchange.assets), freshSeconds, staleSeconds, now)
      ensures asOf == Earliest(old(asOf), exchange.asOf)
      ensures Reports(health, exchange, FreshnessAt(exchange.asOf, freshSeconds, staleSeconds, now))
    {
      var exchangeFreshness := FreshnessAt(exchange.asOf, freshSeconds, staleSeconds, now);
      health := OwnHealth(exchange, exchangeFreshness);
      var quality := MergeQuality(priceQuality, exchange.assets, health.assetsPriced, observations);
      var oldest := Earliest(asOf, exchange.asOf);
      var newFreshness := FreshnessAt(oldest, freshSeconds, staleSeconds, now);
      OwnHealthReports(exchange, exchangeFreshness);
      CascadeMerge(chainIssues > 0, priceQuality.state, quality.state, health.state == ExchangePartial,
                   refreshInProgress, missingWallets > 0, freshness, newFreshness);
      asOf, freshness, priceQuality := oldest, newFreshness, quality;
      state := if state == Partial || health.state == ExchangePartial then Partial
               else if refreshInProgress then Updating
               else if newFreshness == Stale then StaleHealth
               else FreshHealth;
    }
  }

  function OwnHealth(exchange: Snapshot, freshness: Freshness): ExchangeHealth {
    var assetsTotal := |exchange.assets|;
    var assetsPriced := |Filter(HasPrice(), exchange.assets)|;
    ExchangeHealth(if assetsPriced < assetsTotal then ExchangePartial
                   else if freshness == Stale then ExchangeStale else ExchangeFresh,
                   freshness, exchange.asOf, assetsPriced, assetsTotal)
  }

  lemma OwnHealthReports(exchange: Snapshot, freshness: Freshness)
    ensures Reports(OwnHealth(exchange, freshness), exchange, freshness)
  {
    CountAll(HasPrice(), exchange.assets);
  }

  /** The part of the merge that updates `price_quality`. */
  method MergeQuality(quality: Quality, assets: seq<Exchange.Position>, exchangePriced: int,
          ghost observations: seq<Observation>)
    returns (merged: Quality)
    requires quality == PriceQuality(observations) && exchangePriced == |Filter(HasPrice(), assets)|
    requires forall a :: a in assets ==> Exchange.PositionOk(a)
    ensures merged == PriceQuality(observations + Observed(assets))
    ensures Lacking(merged.state) <==> Lacking(quality.state) || exchangePriced < |assets|
  {
    var existing := set s | s in quality.sources;
    if assets != [] {
      existing := existing + PricedSources(assets);
      if exchangePriced < |assets| { existing := existing + {UnknownSource}; }
    }
    ghost var held := Filter(Relevant(), observations);
    CombinedData(observations, assets);
    InOrderContents(SourcesOf(held));
    ExistingSources(SourcesOf(held), assets);
    assert existing == SourcesOf(held + Observed(assets));
    var priced, total := quality.assetsPriced + exchangePriced, quality.assetsTotal + |assets|;
    merged := Quality(QualityOf(priced, total, existing), InOrder(existing), priced, total);
    CombinedLacks(observations, assets);
  }

  lemma ExistingSources(held: set<Source>, assets: seq<Exchange.Position>)
    requires forall a :: a in assets ==> Exchange.PositionOk(a)
    ensures held + SourcesOf(Observed(assets))
            == held + (if assets == [] then {}
                       else PricedSources(assets)
                            + if |Filter(HasPrice(), assets)| < |assets| then {UnknownSource} else {})
  {
    ExchangeSources(assets);
    if assets == [] {
      NoneIn(PricedSources(assets));
    }
  }

  function PricedSources(assets: seq<Exchange.Position>): set<Source> {
    set a | a in assets && a.priceUsd.Some? :: NormalizeSource(a.priceSource)
  }

  /** Reading the exchange and merging it: the answer's own checks supply what the merge relies on. */
  method ReadAndMerge(health: DataHealth, token: string, userId: int, reply: Exchange.Reply<Exchange.Payload>,
                      prices: string -> Option<real>, freshSeconds: real, staleSeconds: real, now: real,
                      ghost observations: seq<Observation>)
    returns (exchange: Snapshot, merged: Option<ExchangeHealth>)
    requires health.Summarizes(observations, freshSeconds, staleSeconds, now)
    modifies health
    ensures exchange.status == Exchange.Success ==>
              health.Summarizes(observations + Observed(exchange.assets), freshSeconds, staleSeconds, now)
    ensures exchange.status
            == if Exchange.Usable(token, userId, reply) then Exchange.Success else Exchange.FailureOf(token, reply)
    ensures exchange.status == Exchange.Success ==>
              && exchange.asOf == Some(reply.body.value.completedAt as real)
              && |exchange.assets| == |reply.body.value.balances|
              && forall i :: 0 <= i < |exchange.assets| ==>
                   Exchange.Shows(exchange.assets[i], reply.body.value.balances[i], prices)
    ensures exchange.status == Exchange.Success ==>
              && merged.Some?
              && Reports(merged.value, exchange, FreshnessAt(exchange.asOf, freshSeconds, staleSeconds, now))
    ensures merged.None? <==> token == ""
    ensures token != "" && exchange.status != Exchange.Success ==> health.state == Partial
  {
    var status, asOf, assets := Exchange.FetchExchangePortfolio(token, userId, reply, prices);
    exchange := Snapshot(status, if asOf.Some? then Some(asOf.value as real) else None, assets);
    assert forall a :: a in assets ==> Exchange.PositionOk(a);
    merged := health.MergeExchange(exchange, freshSeconds, staleSeconds, now, observations);
  }

  // ---------- Why merging equals rebuilding ----------

  /** The relevant observations of the combined data, counted and collected part by part. */
  lemma CombinedData(observations: seq<Observation>, assets: seq<Exchange.Position>)
    requires forall a :: a in assets ==> Exchange.PositionOk(a)
    ensures var held, extra := Filter(Relevant(), observations), Observed(assets);
            && Filter(Relevant(), observations + extra) == held + extra
            && |Filter(Priced(), held + extra)| == |Filter(Priced(), held)| + |Filter(HasPrice(), assets)|
            && SourcesOf(held + extra) == SourcesOf(held) + SourcesOf(extra)
  {
    var held, extra := Filter(Relevant(), observations), Observed(assets);
    FilterConcat(Relevant(), observations, extra);
    AllRelevant(assets);
    FilterConcat(Priced(), held, extra);
    PricedCount(assets);
    assert forall o :: o in held + extra <==> o in held || o in extra;
  }

  lemma AllRelevant(assets: seq<Exchange.Position>)
    requires forall a :: a in assets ==> Exchange.PositionOk(a)
    ensures Filter(Relevant(), Observed(assets)) == Observed(assets)
  {
    var extra := Observed(assets);
    forall o | o in extra ensures o.amount != 0.0 {
      var i :| 0 <= i < |extra| && extra[i] == o;
      assert assets[i] in assets;
    }
    FilterAll(Relevant(), extra);
  }

  lemma {:induction false} PricedCount(assets: seq<Exchange.Position>)
    ensures |Filter(Priced(), Observed(assets))| == |Filter(HasPrice(), assets)|
  {
    if assets != [] {
      PricedCount(assets[1..]);
      assert Observed(assets)[1..] == Observed(assets[1..]);
    }
  }

  /** An unpriced position has no source; a priced one has a market source. */
  lemma ExchangeSources(assets: seq<Exchange.Position>)
    requires forall a :: a in assets ==> Exchange.PositionOk(a)
    ensures SourcesOf(Observed(assets))
            == PricedSources(assets) + (if |Filter(HasPrice(), assets)| < |assets| then {UnknownSource} else {})
    ensures StaticDev !in SourcesOf(Observed(assets))
  {
    var extra := Observed(assets);
    CountAll(HasPrice(), assets);
    assert forall i :: 0 <= i < |assets| ==> extra[i] in extra && assets[i] in assets;
    forall s ensures s in SourcesOf(extra) <==>
                       s in PricedSources(assets) || (s == UnknownSource && exists a :: a in assets && a.priceUsd.None?)
             ensures s in SourcesOf(extra) ==> s != StaticDev
    {
      if s in SourcesOf(extra) {
        var o :| o in extra && NormalizeSource(o.source) == s;
        var i :| 0 <= i < |extra| && extra[i] == o;
        assert assets[i] in assets;
      }
    }
  }

  /** The qualities the cascade turns into a partial state. */
  predicate Lacking(q: QualityState) {
    q == Estimated || q == Incomplete
  }

  lemma QualityMerges(priced: int, total: int, sources: set<Source>, morePriced: int, more: int,
          moreSources: set<Source>)
    requires 0 <= priced <= total && 0 <= morePriced <= more
    requires StaticDev !in moreSources && (total == 0 ==> sources == {})
    ensures Lacking(QualityOf(priced + morePriced, total + more, sources + moreSources))
            <==> Lacking(QualityOf(priced, total, sources)) || morePriced < more
  {
  }

  /** Combined data lacks quality exactly when the wallets' data did or some exchange asset has no price. */
  lemma CombinedLacks(observations: seq<Observation>, assets: seq<Exchange.Position>)
    requires forall a :: a in assets ==> Exchange.PositionOk(a)
    ensures Lacking(PriceQuality(observations + Observed(assets)).state)
            <==> Lacking(PriceQuality(observations).state) || |Filter(HasPrice(), assets)| < |assets|
  {
    var held := Filter(Relevant(), observations);
    CombinedData(observations, assets);
    ExchangeSources(assets);
    CountAll(HasPrice(), assets);
    CountAll(Priced(), held);
    assert held == [] ==> SourcesOf(held) == {};
    QualityMerges(|Filter(Priced(), held)|, |held|, SourcesOf(held),
                  |Filter(HasPrice(), assets)|, |assets|, SourcesOf(Observed(assets)));
  }

  /** The merge's shorter cascade agrees with the full one on the combined data. */
  lemma CascadeMerge(issues: bool, quality: QualityState, combined: QualityState, unpriced: bool,
                     refreshing: bool, missing: bool, before: Freshness, after: Freshness)
    requires Lacking(combined) <==> Lacking(quality) || unpriced
    ensures Cascade(issues, combined, refreshing, missing, after)
            == if Cascade(issues, quality, refreshing, missing, before) == Partial || unpriced then Partial
               else if refreshing then Updating
               else if after == Stale then StaleHealth
               else FreshHealth
  {
  }
}
