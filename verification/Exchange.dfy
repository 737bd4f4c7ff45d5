/** Reading stored exchange snapshots: what a successful answer guarantees. */
module Exchange {
  import opened Collections

  datatype Status = NotConfigured | Success | NotFound | TimedOut | Unavailable | InvalidResponse

  datatype Balance = Balance(
    asset: string, free: real, locked: real, total: real,
    priceUsd: Option<real>, usdValue: Option<real>, priceSource: Option<string>)

  datatype Payload = Payload(
    id: int, userId: int, exchange: string, status: string,
    createdAt: int, completedAt: int, balances: seq<Balance>)

  /** The HTTP exchange as seen by the caller. `body` is absent when the answer is not JSON. */
  datatype Reply<+T> = Timeout | RequestError | Answer(code: int, body: Option<T>)

  datatype Position = Position(
    symbol: string, amount: real, priceUsd: Option<real>, usdValue: real, priceSource: Option<string>)

  datatype Point = Point(asOf: int, totalUsd: real)

  const COIN_IDS: map<string, string> := map[
    "BTC" := "bitcoin", "ETH" := "ethereum", "BNB" := "binancecoin",
    "USDT" := "tether", "USDC" := "usd-coin", "DAI" := "dai"]

  // ---------- Schema and consistency ----------

  predicate SymbolChar(c: char) {
    'A' <= c <= 'Z' || '0' <= c <= '9'
  }

  predicate BalanceSchema(b: Balance) {
    && 1 <= |b.asset| <= 32
    && (forall c :: c in b.asset ==> SymbolChar(c))
    && b.free >= 0.0 && b.locked >= 0.0 && b.total > 0.0
    && (b.priceUsd.Some? ==> b.priceUsd.value > 0.0)
    && (b.usdValue.Some? ==> b.usdValue.value >= 0.0)
    && (b.priceSource.Some? ==> b.priceSource.value == "binance_usdt")
  }

  predicate PayloadSchema(p: Payload) {
    && p.id > 0 && p.userId > 0 && p.exchange == "binance" && p.status == "success"
    && |p.balances| <= 500
    && (forall b :: b in p.balances ==> BalanceSchema(b))
  }

  predicate HistorySchema(ps: seq<Payload>) {
    |ps| <= 5000 && forall p :: p in ps ==> PayloadSchema(p)
  }

  function Symbols(bs: seq<Balance>): (r: seq<string>)
    ensures |r| == |bs| && forall i :: 0 <= i < |bs| ==> r[i] == bs[i].asset
  {
    seq(|bs|, i requires 0 <= i < |bs| => bs[i].asset)
  }

  predicate Consistent(p: Payload, userId: int) {
    && p.userId == userId
    && p.createdAt <= p.completedAt
    && SetKeepsSize(Symbols(p.balances))
    && (forall b :: b in p.balances ==> b.total == b.free + b.locked)
  }

  /** The stored valuation is either entirely absent or entirely present and exact. */
  datatype Valuation = Absent | Malformed | Valued(usd: real)

  function StoredValuation(b: Balance): (v: Valuation)
    ensures v.Valued? <==> && b.priceUsd.Some? && b.usdValue.Some? && b.priceSource.Some?
                           && b.usdValue.value == b.total * b.priceUsd.value
    ensures v.Valued? ==> v.usd == b.total * b.priceUsd.value
    ensures v.Absent? <==> b.priceUsd.None? && b.usdValue.None? && b.priceSource.None?
  {
    if b.priceUsd.None? && b.usdValue.None? && b.priceSource.None? then Absent
    else if b.priceUsd.None? || b.usdValue.None? || b.priceSource.None? then Malformed
    else if b.usdValue.value != b.total * b.priceUsd.value then Malformed
    else Valued(b.usdValue.value)
  }

  ghost predicate NoneMalformed(bs: seq<Balance>) {
    forall b :: b in bs ==> !StoredValuation(b).Malformed?
  }

  ghost predicate AllValued(bs: seq<Balance>) {
    forall b :: b in bs ==> StoredValuation(b).Valued?
  }

  // ---------- Latest portfolio ----------

  /** What a position promises its readers: a price exactly when it has a source, and value = amount * price. */
  predicate PositionOk(a: Position) {
    && a.amount > 0.0
    && (a.priceUsd.Some? <==> a.priceSource.Some?)
    && (a.priceSource.Some? ==> a.priceSource.value in {"coingecko", "binance_usdt"})
    && (a.priceUsd.Some? ==> a.priceUsd.value > 0.0)
    && a.usdValue == (if a.priceUsd.Some? then a.amount * a.priceUsd.value else 0.0)
  }

  /** The market price of a symbol, where one is known and positive. */
  function MarketPrice(symbol: string, prices: string -> Option<real>): (p: Option<real>)
    ensures p.Some? ==> p.value > 0.0
  {
    if symbol !in COIN_IDS then None
    else
      var price := prices(COIN_IDS[symbol]);
      if price.Some? && price.value > 0.0 then price else None
  }

  /** A position shows its balance's stored price, or else the market's. */
  ghost predicate Shows(a: Position, b: Balance, prices: string -> Option<real>) {
    && PositionOk(a) && a.symbol == b.asset && a.amount == b.total
    && (b.priceUsd.Some? ==> a.priceUsd == b.priceUsd && a.priceSource == Some("binance_usdt"))
    && (b.priceUsd.None? ==>
          a.priceUsd == MarketPrice(b.asset, prices) && (a.priceUsd.Some? ==> a.priceSource == Some("coingecko")))
  }

  /** A configured client got a well-formed, consistent answer with no malformed valuation. */
  ghost predicate Usable(token: string, userId: int, reply: Reply<Payload>) {
    && token != "" && reply.Answer? && reply.code == 200 && reply.body.Some?
    && PayloadSchema(reply.body.value) && Consistent(reply.body.value, userId)
    && NoneMalformed(reply.body.value.balances)
  }

  /** The status of an answer that is not used. */
  function FailureOf<T>(token: string, reply: Reply<T>): Status {
    if token == "" then NotConfigured
    else match reply
         case Timeout => TimedOut
         case RequestError => Unavailable
         case Answer(code, _) => if code == 404 then NotFound else if code != 200 then Unavailable else InvalidResponse
  }

  /** `prices` answers a coin identifier with the cached price, or nothing when the lookup raises. */
  method FetchExchangePortfolio(token: string, userId: int, reply: Reply<Payload>, prices: string -> Option<real>)
    returns (status: Status, asOf: Option<int>, assets: seq<Position>)
    ensures status == if Usable(token, userId, reply) then Success else FailureOf(token, reply)
    ensures status == Success ==>
              && asOf == Some(reply.body.value.completedAt)
              && |assets| == |reply.body.value.balances|
              && Distinct(Symbols(reply.body.value.balances))
              && forall i :: 0 <= i < |assets| ==> Shows(assets[i], reply.body.value.balances[i], prices)
    ensures status != Success ==> asOf == None && assets == []
  {
    asOf, assets := None, [];
    if token == "" { return NotConfigured, None, []; }
    if reply.Timeout? { return TimedOut, None, []; }
    if reply.RequestError? { return Unavailable, None, []; }
    if reply.code == 404 { return NotFound, None, []; }
    if reply.code != 200 { return Unavailable, None, []; }
    if reply.body.None? || !PayloadSchema(reply.body.value) { return InvalidResponse, None, []; }
    var payload := reply.body.value;
    if !Consistent(payload, userId) { return InvalidResponse, None, []; }
    SetSize(Symbols(payload.balances));
    for n := 0 to |payload.balances|
      invariant |assets| == n
      invariant forall i :: 0 <= i < n ==> !StoredValuation(payload.balances[i]).Malformed?
      invariant forall i :: 0 <= i < n ==> Shows(assets[i], payload.balances[i], prices)
    {
      var b := payload.balances[n];
      assert b in payload.balances;
      var stored := StoredValuation(b);
      if stored.Malformed? {
        return InvalidResponse, None, [];
      }
      var priceUsd, priceSource := b.priceUsd, b.priceSource;
      if stored.Absent? && b.asset in COIN_IDS {
        priceUsd := prices(COIN_IDS[b.asset]);
        if priceUsd.Some? && priceUsd.value <= 0.0 {
          priceUsd := None;
        } else if priceUsd.Some? {
          priceSource := Some("coingecko");
        }
      }
      var usd := if stored.Valued? then stored.usd
                 else if priceUsd.Some? then b.total * priceUsd.value else 0.0;
      assets := assets + [Position(b.asset, b.total, priceUsd, usd, priceSource)];
    }
    return Success, Some(payload.completedAt), assets;
  }

  // ---------- History ----------

  /** The worth of the balances at their own stored prices. */
  ghost function Worth(bs: seq<Balance>): real
    requires forall b :: b in bs ==> b.priceUsd.Some?
  {
    if bs == [] then 0.0
    else Worth(bs[..|bs| - 1]) + bs[|bs| - 1].total * bs[|bs| - 1].priceUsd.value
  }

  ghost function SnapshotPoints(p: Payload): seq<Point> {
    if AllValued(p.balances) then [Point(p.completedAt, Worth(p.balances))] else []
  }

  /** One point for each snapshot whose balances are all valued, in order. */
  ghost function ValuedPoints(ps: seq<Payload>): seq<Point> {
    if ps == [] then [] else ValuedPoints(ps[..|ps| - 1]) + SnapshotPoints(ps[|ps| - 1])
  }

  ghost predicate AcceptableSnapshot(p: Payload, userId: int) {
    Consistent(p, userId) && NoneMalformed(p.balances)
  }

  ghost predicate Acceptable(ps: seq<Payload>, userId: int) {
    && (forall i :: 0 <= i < |ps| ==> AcceptableSnapshot(ps[i], userId))
    && (forall i :: 0 < i < |ps| ==> ps[i - 1].completedAt <= ps[i].completedAt)
  }

  ghost predicate NonDecreasing(points: seq<Point>) {
    forall i, j :: 0 <= i < j < |points| ==> points[i].asOf <= points[j].asOf
  }

  ghost predicate UsableHistory(token: string, userId: int, reply: Reply<seq<Payload>>) {
    && token != "" && reply.Answer? && reply.code == 200 && reply.body.Some?
    && HistorySchema(reply.body.value) && Acceptable(reply.body.value, userId)
  }

  /** What an answer contributes to the history: everything it stores, or nothing. */
  ghost function StoredPoints(token: string, userId: int, reply: Reply<seq<Payload>>): seq<Point> {
    if UsableHistory(token, userId, reply) then ValuedPoints(reply.body.value) else []
  }

  lemma OneMoreBalance(bs: seq<Balance>, n: int)
    requires 0 <= n < |bs|
    ensures NoneMalformed(bs[..n + 1]) <==> NoneMalformed(bs[..n]) && !StoredValuation(bs[n]).Malformed?
    ensures AllValued(bs[..n + 1]) <==> AllValued(bs[..n]) && StoredValuation(bs[n]).Valued?
    ensures AllValued(bs[..n + 1]) ==> Worth(bs[..n + 1]) == Worth(bs[..n]) + StoredValuation(bs[n]).usd
  {
    assert bs[..n + 1] == bs[..n] + [bs[n]];
    assert bs[..n + 1][..n] == bs[..n];
  }

  method SumValuations(bs: seq<Balance>) returns (malformed: bool, complete: bool, total: real)
    ensures malformed <==> !NoneMalformed(bs)
    ensures !malformed ==> (complete <==> AllValued(bs))
    ensures !malformed && complete ==> total == Worth(bs)
  {
    malformed, complete, total := false, true, 0.0;
    for n := 0 to |bs|
      invariant NoneMalformed(bs[..n])
      invariant complete <==> AllValued(bs[..n])
      invariant complete ==> total == Worth(bs[..n])
    {
      OneMoreBalance(bs, n);
      var v := StoredValuation(bs[n]);
      if v.Malformed? {
        assert bs[n] in bs;
        return true, false, 0.0;
      }
      if v.Absent? { complete := false; } else { total := total + v.usd; }
    }
    assert bs[..|bs|] == bs;
  }

  lemma {:induction false} ValuedPointsBounded(ps: seq<Payload>)
    requires forall i :: 0 < i < |ps| ==> ps[i - 1].completedAt <= ps[i].completedAt
    ensures NonDecreasing(ValuedPoints(ps))
    ensures forall q :: q in ValuedPoints(ps) ==> q.asOf <= ps[|ps| - 1].completedAt
  {
    if ps != [] {
      var front := ps[..|ps| - 1];
      ValuedPointsBounded(front);
      assert front != [] ==> front[|front| - 1] == ps[|ps| - 2];
    }
  }

  method FetchExchangeHistory(token: string, userId: int, reply: Reply<seq<Payload>>)
    returns (status: Status, points: seq<Point>)
    ensures status == if UsableHistory(token, userId, reply) then Success else FailureOf(token, reply)
    ensures points == StoredPoints(token, userId, reply)
    ensures NonDecreasing(points)
  {
    points := [];
    if token == "" { return NotConfigured, []; }
    if reply.Timeout? { return TimedOut, []; }
    if reply.RequestError? { return Unavailable, []; }
    if reply.code == 404 { return NotFound, []; }
    if reply.code != 200 { return Unavailable, []; }
    if reply.body.None? || !HistorySchema(reply.body.value) { return InvalidResponse, []; }
    var ok;
    ok, points := ReadSnapshots(reply.body.value, userId);
    status := if ok then Success else InvalidResponse;
    if ok { ValuedPointsBounded(reply.body.value); }
  }

  method ReadSnapshot(p: Payload, userId: int, previousAt: Option<int>) returns (ok: bool, read: seq<Point>)
    ensures ok <==> AcceptableSnapshot(p, userId) && (previousAt.Some? ==> previousAt.value <= p.completedAt)
    ensures ok ==> read == SnapshotPoints(p)
  {
    if !Consistent(p, userId) { return false, []; }
    if previousAt.Some? && p.completedAt < previousAt.value { return false, []; }
    var malformed, complete, total := SumValuations(p.balances);
    ok := !malformed;
    read := if complete then [Point(p.completedAt, total)] else [];
  }

  method ReadSnapshots(ps: seq<Payload>, userId: int) returns (ok: bool, points: seq<Point>)
    ensures ok <==> Acceptable(ps, userId)
    ensures points == if ok then ValuedPoints(ps) else []
  {
    points := [];
    var previousAt: Option<int> := None;
    for n := 0 to |ps|
      invariant forall i :: 0 <= i < n ==> AcceptableSnapshot(ps[i], userId)
      invariant forall i :: 0 < i < n ==> ps[i - 1].completedAt <= ps[i].completedAt
      invariant previousAt == if n == 0 then None else Some(ps[n - 1].completedAt)
      invariant points == ValuedPoints(ps[..n])
    {
      var accepted, read := ReadSnapshot(ps[n], userId, previousAt);
      if !accepted { return false, []; }
      previousAt := Some(ps[n].completedAt);
      assert ps[..n + 1][..n] == ps[..n];
      points := points + read;
    }
    assert ps[..|ps|] == ps;
    return true, points;
  }

  // ---------- The rules of an answer, written out ----------

  /** A snapshot obeys the schema exactly when its ids are positive, it is a successful one of the one provider,
      and each of at most 500 balances has a symbol of capitals and digits, amounts of the right sign, and, where
      given, a positive price, a value that is not negative, and the one known source. */
  lemma SchemaMeaning(p: Payload)
    ensures PayloadSchema(p) <==>
              && p.id >= 1 && p.userId >= 1 && p.exchange == "binance" && p.status == "success" && |p.balances| <= 500
              && forall b :: b in p.balances ==>
                   && 1 <= |b.asset| <= 32 && (forall c :: c in b.asset ==> 'A' <= c <= 'Z' || '0' <= c <= '9')
                   && b.free >= 0.0 && b.locked >= 0.0 && b.total > 0.0
                   && (b.priceUsd.Some? ==> b.priceUsd.value > 0.0) && (b.usdValue.Some? ==> b.usdValue.value >= 0.0)
                   && (b.priceSource == None || b.priceSource == Some("binance_usdt"))
  {
  }

  /** It is consistent for a user exactly when it is that user's, did not end before it began, names no symbol
      twice, and every total is what is free plus what is locked. */
  lemma ConsistentMeaning(p: Payload, userId: int)
    ensures Consistent(p, userId) <==>
              && p.userId == userId && p.completedAt >= p.createdAt
              && (forall i, j :: 0 <= i < j < |p.balances| ==> p.balances[i].asset != p.balances[j].asset)
              && (forall b :: b in p.balances ==> b.free + b.locked == b.total)
  {
    SetSize(Symbols(p.balances));
  }

  /** Which failure each reply stands for. */
  lemma FailureMeaning<T>(token: string, reply: Reply<T>)
    ensures token == "" ==> FailureOf(token, reply) == NotConfigured
    ensures token != "" ==>
              && (reply.Timeout? ==> FailureOf(token, reply) == TimedOut)
              && (reply.RequestError? ==> FailureOf(token, reply) == Unavailable)
              && (reply.Answer? && reply.code == 404 ==> FailureOf(token, reply) == NotFound)
              && (reply.Answer? && reply.code == 200 ==> FailureOf(token, reply) == InvalidResponse)
              && (reply.Answer? && reply.code != 404 && reply.code != 200 ==> FailureOf(token, reply) == Unavailable)
  {
  }

  /** Six symbols have a market price, each under its own coin identifier, and only a positive one counts. */
  lemma MarketPriceMeaning(prices: string -> Option<real>)
    ensures forall symbol, id ::
              (symbol, id) in {("BTC", "bitcoin"), ("ETH", "ethereum"), ("BNB", "binancecoin"), ("USDT", "tether"),
                               ("USDC", "usd-coin"), ("DAI", "dai")} ==>
                MarketPrice(symbol, prices)
                == if prices(id).Some? && prices(id).value > 0.0 then prices(id) else None
    ensures forall symbol :: symbol !in {"BTC", "ETH", "BNB", "USDT", "USDC", "DAI"} ==>
              MarketPrice(symbol, prices) == None
  {
  }

  /** The worth of valued balances is the sum of their stored values. */
  lemma {:induction false} WorthMeaning(bs: seq<Balance>, b: Balance)
    requires AllValued(bs) && StoredValuation(b).Valued?
    ensures Worth([]) == 0.0 && Worth(bs + [b]) == Worth(bs) + b.usdValue.value
  {
    assert (bs + [b])[..|bs|] == bs;
  }

  /** A snapshot adds a point at its completion exactly when it has no unvalued balance. */
  lemma ValuedPointsMeaning(ps: seq<Payload>, p: Payload)
    ensures ValuedPoints([]) == []
    ensures (forall b :: b in p.balances ==> StoredValuation(b).Valued?) ==>
              ValuedPoints(ps + [p]) == ValuedPoints(ps) + [Point(p.completedAt, Worth(p.balances))]
    ensures (exists b :: b in p.balances && !StoredValuation(b).Valued?) ==> ValuedPoints(ps + [p]) == ValuedPoints(ps)
  {
    assert (ps + [p])[..|ps|] == ps;
  }

  lemma HistorySchemaMeaning(ps: seq<Payload>)
    ensures HistorySchema(ps) <==> |ps| <= 5000 && forall p :: p in ps ==> PayloadSchema(p)
  {
  }
}
