/** Portfolio history: a seeded sweep over sorted snapshot events, proved to give
    at each event time the sum of every account's latest admissible balance. */
module History {
  import opened Collections
  import Exchange

  datatype Account = Cex | Wallet(id: int)

  /** One stored balance. `id` is the primary key of its table, or the position of an exchange point. */
  datatype Row = Row(account: Account, at: int, usd: real, id: int)

  datatype NewSnapshot = NewSnapshot(
    id: int, walletId: int, status: string, totalUsd: real,
    finishedAt: Option<int>, runFinishedAt: Option<int>, runCreatedAt: int)
  {
    function ObservedAt(): int {
      if finishedAt.Some? then finishedAt.value
      else if runFinishedAt.Some? then runFinishedAt.value
      else runCreatedAt
    }
  }

  datatype LegacySnapshot = LegacySnapshot(id: int, walletId: int, snapshotAt: int, totalUsd: real)

  datatype Db = Db(newRows: seq<NewSnapshot>, legacyRows: seq<LegacySnapshot>)

  ghost predicate ValidDb(db: Db) {
    && (forall i, j :: 0 <= i < j < |db.newRows| ==> db.newRows[i].id != db.newRows[j].id)
    && (forall i, j :: 0 <= i < j < |db.legacyRows| ==> db.legacyRows[i].id != db.legacyRows[j].id)
  }

  // ---------- Orders ----------

  predicate AtIdLe(x: Row, y: Row) {
    x.at < y.at || (x.at == y.at && x.id <= y.id)
  }

  predicate AccountLe(a: Account, b: Account) {
    a.Cex? || (b.Wallet? && a.id <= b.id)
  }

  /** The key (time, source, wallet): "cex" sorts before "wallet". */
  predicate EventLe(x: Row, y: Row) {
    x.at < y.at || (x.at == y.at && AccountLe(x.account, y.account))
  }

  predicate TieById(x: Row, y: Row) {
    x.at == y.at && x.account == y.account ==> x.id <= y.id
  }

  // ---------- Queries ----------

  function NewRows(db: Db, ids: set<int>): seq<Row> {
    var kept := Filter((s: NewSnapshot) => s.walletId in ids && s.status == "success", db.newRows);
    seq(|kept|, i requires 0 <= i < |kept| =>
      Row(Wallet(kept[i].walletId), kept[i].ObservedAt(), kept[i].totalUsd, kept[i].id))
  }

  function LegacyRows(db: Db, ids: set<int>): seq<Row> {
    var kept := Filter((s: LegacySnapshot) => s.walletId in ids, db.legacyRows);
    seq(|kept|, i requires 0 <= i < |kept| =>
      Row(Wallet(kept[i].walletId), kept[i].snapshotAt, kept[i].totalUsd, kept[i].id))
  }

  function CexRows(points: seq<Exchange.Point>): seq<Row> {
    seq(|points|, i requires 0 <= i < |points| => Row(Cex, points[i].asOf, points[i].totalUsd, i))
  }

  /** `min(observed_at)` per wallet. */
  function FirstNew(rows: seq<Row>): (m: map<Account, int>)
    ensures forall a :: a in m <==> exists r :: r in rows && r.account == a
    ensures forall r :: r in rows ==> m[r.account] <= r.at
  {
    if rows == [] then map[]
    else
      var m := FirstNew(rows[1..]);
      assert rows == [rows[0]] + rows[1..];
      var r := rows[0];
      m[r.account := if r.account in m && m[r.account] <= r.at then m[r.account] else r.at]
  }

  /** The minimum is one of the account's times, so it is the earliest of them. */
  lemma {:induction false} FirstNewIsEarliest(rows: seq<Row>, a: Account) returns (r: Row)
    requires a in FirstNew(rows)
    ensures r in rows && r.account == a && r.at == FirstNew(rows)[a]
    ensures forall q :: q in rows && q.account == a ==> r.at <= q.at
  {
    assert rows == [rows[0]] + rows[1..];
    if rows[0].account == a && FirstNew(rows)[a] == rows[0].at {
      r := rows[0];
    } else {
      r := FirstNewIsEarliest(rows[1..], a);
    }
  }

  /** The row ranked first per account by (time, id) descending. */
  function RankOne(rows: seq<Row>): (m: map<Account, Row>)
    ensures forall r :: r in rows ==> r.account in m && AtIdLe(r, m[r.account])
    ensures forall a :: a in m ==> m[a] in rows && m[a].account == a
  {
    if rows == [] then map[]
    else
      var m := RankOne(rows[1..]);
      assert rows == [rows[0]] + rows[1..];
      var r := rows[0];
      m[r.account := if r.account in m && AtIdLe(r, m[r.account]) then m[r.account] else r]
  }

  /** A legacy row counts only before the wallet's first new snapshot. */
  predicate BeforeFirstNew(first: map<Account, int>, r: Row) {
    r.account !in first || r.at < first[r.account]
  }

  // ---------- Specification ----------

  /** Every balance the history may show, whatever the window. */
  ghost function Admissible(db: Db, ids: set<int>, points: seq<Exchange.Point>): seq<Row> {
    var first := FirstNew(NewRows(db, ids));
    NewRows(db, ids) + Filter(Countable(first), LegacyRows(db, ids)) + CexRows(points)
  }

  ghost predicate IsLatest(rows: seq<Row>, a: Account, t: int, r: Row) {
    && r in rows && r.account == a && r.at <= t
    && forall q :: q in rows && q.account == a && q.at <= t ==> AtIdLe(q, r)
  }

  /** The latest balance of an account at or before `t`, ties going to the higher id. */
  ghost function LatestRow(rows: seq<Row>, a: Account, t: int): (best: Option<Row>)
    ensures best.Some? ==> IsLatest(rows, a, t, best.value)
    ensures best.None? ==> forall q :: q in rows && q.account == a ==> q.at > t
  {
    if rows == [] then None
    else
      var last := rows[|rows| - 1];
      assert rows == rows[..|rows| - 1] + [last];
      var best := LatestRow(rows[..|rows| - 1], a, t);
      if last.account == a && last.at <= t && (best.None? || AtIdLe(best.value, last)) then Some(last)
      else best
  }

  ghost predicate Keyed(rows: seq<Row>) {
    forall x, y :: x in rows && y in rows && x.account == y.account && x.at == y.at && x.id == y.id ==> x == y
  }

  /** What the sweep carries: `balance_by_wallet` and `cex_usd`. */
  datatype Ledger = Ledger(balances: map<int, real>, cex: Option<real>)

  ghost function LedgerAt(rows: seq<Row>, ids: set<int>, t: int): Ledger {
    Ledger(
      map w | w in ids && LatestRow(rows, Wallet(w), t).Some? :: LatestRow(rows, Wallet(w), t).value.usd,
      var c := LatestRow(rows, Cex, t); if c.Some? then Some(c.value.usd) else None)
  }

  datatype Sources = Sources(onchainUsd: real, cexUsd: Option<real>, manualUsd: real)

  datatype Point = Point(at: int, totalUsd: real, sources: Sources)

  ghost function Side(balances: map<int, real>, types: map<int, string>, manual: bool): map<int, real> {
    map w | w in balances && w in types && (types[w] == "manual") == manual :: balances[w]
  }

  ghost function SourcesOf(l: Ledger, types: map<int, string>): Sources {
    Sources(SumMap(Side(l.balances, types, false)), l.cex, SumMap(Side(l.balances, types, true)))
  }

  ghost function PointOf(l: Ledger, types: map<int, string>, t: int): Point {
    var s := SourcesOf(l, types);
    Point(t, s.onchainUsd + s.manualUsd + (if l.cex.Some? then l.cex.value else 0.0), s)
  }

  ghost predicate PointAt(points: seq<Point>, t: int) {
    exists p :: 0 <= p < |points| && points[p].at == t
  }

  ghost predicate RowAt(rows: seq<Row>, t: int) {
    exists r :: r in rows && r.at == t
  }

  ghost predicate Increasing(points: seq<Point>) {
    forall i, j :: 0 <= i < j < |points| ==> points[i].at < points[j].at
  }

  /** One point per distinct time from `since` on, in order, each the sum of the latest balances. */
  ghost predicate IsHistory(rows: seq<Row>, types: map<int, string>, since: int, points: seq<Point>) {
    && Increasing(points)
    && (forall t :: PointAt(points, t) <==> t >= since && RowAt(rows, t))
    && (forall p :: p in points ==> p == PointOf(LedgerAt(rows, types.Keys, p.at), types, p.at))
  }

  // ---------- The rows and events the code builds ----------

  function From(since: int): Row -> bool {
    (r: Row) => r.at >= since
  }

  function Until(since: int): Row -> bool {
    (r: Row) => r.at < since
  }

  function Countable(first: map<Account, int>): Row -> bool {
    (r: Row) => BeforeFirstNew(first, r)
  }

  function HistoryRows(db: Db, ids: set<int>, since: int): seq<Row> {
    var newRows := NewRows(db, ids);
    var recent := Sort(AtIdLe, Filter(From(since), newRows));
    var legacy := Sort(AtIdLe, Filter(From(since), LegacyRows(db, ids)));
    Sort(EventLe, recent + Filter(Countable(FirstNew(newRows)), legacy))
  }

  function Events(db: Db, ids: set<int>, points: seq<Exchange.Point>, since: int): seq<Row> {
    Sort(EventLe, HistoryRows(db, ids, since) + Filter(From(since), CexRows(points)))
  }

  lemma {:induction false} SortByAtId(rows: seq<Row>)
    ensures Chain(AtIdLe, Sort(AtIdLe, rows))
    ensures Chain(TieById, Sort(AtIdLe, rows))
    ensures forall r :: r in Sort(AtIdLe, rows) <==> r in rows
  {
    var always := (x: Row, y: Row) => true;
    SortOrdered(AtIdLe, always, rows);
    SortContents(AtIdLe, rows);
    ChainWeaken(Ordered(AtIdLe, always), AtIdLe, Sort(AtIdLe, rows));
    ChainWeaken(AtIdLe, TieById, Sort(AtIdLe, rows));
  }

  lemma {:induction false} SortByEvent(rows: seq<Row>)
    requires Chain(TieById, rows)
    ensures Chain(Ordered(EventLe, TieById), Sort(EventLe, rows))
    ensures Chain(TieById, Sort(EventLe, rows))
    ensures forall r :: r in Sort(EventLe, rows) <==> r in rows
  {
    SortOrdered(EventLe, TieById, rows);
    SortContents(EventLe, rows);
    ChainWeaken(Ordered(EventLe, TieById), TieById, Sort(EventLe, rows));
  }

  lemma NewRowsAreLate(db: Db, ids: set<int>)
    ensures forall r :: r in NewRows(db, ids) ==>
              r.account.Wallet? && !BeforeFirstNew(FirstNew(NewRows(db, ids)), r)
    ensures forall r :: r in LegacyRows(db, ids) ==> r.account.Wallet?
  {
  }

  lemma {:induction false} HistoryRowsOrdered(db: Db, ids: set<int>, since: int)
    ensures Chain(TieById, HistoryRows(db, ids, since))
    ensures Chain(Ordered(EventLe, TieById), HistoryRows(db, ids, since))
    ensures forall r :: r in HistoryRows(db, ids, since) <==>
              r in Admissible(db, ids, []) && r.at >= since
  {
    var newRows := NewRows(db, ids);
    var first := FirstNew(newRows);
    var recent := Sort(AtIdLe, Filter(From(since), newRows));
    var sorted := Sort(AtIdLe, Filter(From(since), LegacyRows(db, ids)));
    var legacy := Filter(Countable(first), sorted);
    SortByAtId(Filter(From(since), newRows));
    SortByAtId(Filter(From(since), LegacyRows(db, ids)));
    FilterChain(Countable(first), TieById, sorted);
    NewRowsAreLate(db, ids);
    forall x, y | x in recent && y in legacy ensures TieById(x, y) {
      assert first[x.account] <= x.at;
    }
    ChainConcat(TieById, recent, legacy);
    SortByEvent(recent + legacy);
  }

  lemma {:induction false} EventsOrdered(db: Db, ids: set<int>, points: seq<Exchange.Point>, since: int)
    ensures Chain(Ordered(EventLe, TieById), Events(db, ids, points, since))
    ensures forall r :: r in Events(db, ids, points, since) <==> r in Admissible(db, ids, points) && r.at >= since
  {
    var rows := HistoryRows(db, ids, since);
    var cex := Filter(From(since), CexRows(points));
    HistoryRowsOrdered(db, ids, since);
    NewRowsAreLate(db, ids);
    FilterChain(From(since), TieById, CexRows(points));
    forall x, y | x in rows && y in cex ensures TieById(x, y) {
    }
    ChainConcat(TieById, rows, cex);
    SortByEvent(rows + cex);
  }

  // ---------- Posting events ----------

  ghost function Post(l: Ledger, e: Row): Ledger {
    match e.account
    case Cex => l.(cex := Some(e.usd))
    case Wallet(w) => l.(balances := l.balances[w := e.usd])
  }

  ghost function PostAll(l: Ledger, events: seq<Row>): Ledger {
    if events == [] then l else Post(PostAll(l, events[..|events| - 1]), events[|events| - 1])
  }

  ghost function Held(l: Ledger, a: Account): Option<real> {
    match a
    case Cex => l.cex
    case Wallet(w) => if w in l.balances then Some(l.balances[w]) else None
  }

  lemma LastIsGreatest(events: seq<Row>, q: Row)
    requires Chain(Ordered(EventLe, TieById), events)
    requires q in events && q.account == events[|events| - 1].account
    ensures AtIdLe(q, events[|events| - 1])
  {
    var i, n :| 0 <= i <= n < |events| && events[i] == q && n == |events| - 1;
    if i < n {
      assert Ordered(EventLe, TieById)(events[i], events[n]);
      assert EventLe(events[i], events[n]);
      assert EventLe(events[n], events[i]) ==> TieById(events[i], events[n]);
    }
  }

  /** An account holds what its last event says, or what it held before the events. */
  lemma {:induction false} PostAllLast(l: Ledger, events: seq<Row>, a: Account) returns (last: Option<Row>)
    requires Chain(Ordered(EventLe, TieById), events)
    ensures last.None? ==> Held(PostAll(l, events), a) == Held(l, a) && forall q :: q in events ==> q.account != a
    ensures last.Some? ==> Held(PostAll(l, events), a) == Some(last.value.usd)
    ensures last.Some? ==> last.value in events && last.value.account == a
    ensures last.Some? ==> forall q :: q in events && q.account == a ==> AtIdLe(q, last.value)
  {
    if events == [] {
      last := None;
    } else {
      var front, e := events[..|events| - 1], events[|events| - 1];
      assert events == front + [e];
      last := PostAllLast(l, front, a);
      if e.account == a {
        forall q | q in events && q.account == a ensures AtIdLe(q, e) {
          LastIsGreatest(events, q);
        }
        last := Some(e);
      }
    }
  }

  ghost function HeldAt(rows: seq<Row>, a: Account, t: int): Option<real> {
    var r := LatestRow(rows, a, t);
    if r.Some? then Some(r.value.usd) else None
  }

  /** Posting every event up to `t` onto the balances from before the window gives the balances at `t`. */
  lemma {:induction false} PostAllIsHeld(rows: seq<Row>, l: Ledger, since: int, events: seq<Row>, k: nat, t: int,
          a: Account)
    requires Keyed(rows)
    requires Chain(Ordered(EventLe, TieById), events) && k <= |events|
    requires forall r :: r in events <==> r in rows && r.at >= since
    requires t >= since - 1
    requires forall i :: 0 <= i < k ==> events[i].at <= t
    requires forall i :: k <= i < |events| ==> events[i].at > t
    requires Held(l, a) == HeldAt(rows, a, since - 1)
    ensures Held(PostAll(l, events[..k]), a) == HeldAt(rows, a, t)
  {
    var last := PostAllLast(l, events[..k], a);
    forall q | q in rows && q.account == a && since <= q.at <= t ensures q in events[..k] {
      var i :| 0 <= i < |events| && events[i] == q;
      assert i < k && events[..k][i] == q;
    }
    var now := LatestRow(rows, a, t);
    if last.Some? {
      assert last.value in events[..k];
      assert last.value in events;
      assert IsLatest(rows, a, t, last.value);
    } else {
      var before := LatestRow(rows, a, since - 1);
    }
  }

  lemma {:induction false} PostAllIsLedgerAt(rows: seq<Row>, ids: set<int>, l: Ledger, since: int,
          events: seq<Row>, k: nat, t: int)
    requires Keyed(rows)
    requires forall r :: r in rows && r.account.Wallet? ==> r.account.id in ids
    requires Chain(Ordered(EventLe, TieById), events) && k <= |events|
    requires forall r :: r in events <==> r in rows && r.at >= since
    requires t >= since - 1
    requires forall i :: 0 <= i < k ==> events[i].at <= t
    requires forall i :: k <= i < |events| ==> events[i].at > t
    requires l == LedgerAt(rows, ids, since - 1)
    ensures PostAll(l, events[..k]) == LedgerAt(rows, ids, t)
  {
    var got, want := PostAll(l, events[..k]), LedgerAt(rows, ids, t);
    forall a: Account ensures Held(got, a) == Held(want, a) {
      HeldInScope(rows, ids, since - 1, a);
      HeldInScope(rows, ids, t, a);
      PostAllIsHeld(rows, l, since, events, k, t, a);
    }
    SameHoldings(got, want);
  }

  lemma HeldInScope(rows: seq<Row>, ids: set<int>, t: int, a: Account)
    requires forall r :: r in rows && r.account.Wallet? ==> r.account.id in ids
    ensures Held(LedgerAt(rows, ids, t), a) == HeldAt(rows, a, t)
  {
  }

  lemma SameHoldings(l: Ledger, m: Ledger)
    requires forall a: Account :: Held(l, a) == Held(m, a)
    ensures l == m
  {
    assert Held(l, Cex) == Held(m, Cex);
    forall w ensures w in l.balances <==> w in m.balances {
      assert Held(l, Wallet(w)) == Held(m, Wallet(w));
    }
    forall w | w in l.balances ensures l.balances[w] == m.balances[w] {
      assert Held(l, Wallet(w)) == Held(m, Wallet(w));
    }
  }

  // ---------- The sweep ----------

  ghost function Only(balances: map<int, real>, keys: set<int>): map<int, real> {
    map w | w in balances && w in keys :: balances[w]
  }

  lemma SideStep(balances: map<int, real>, types: map<int, string>, keys: set<int>, w: int)
    requires w in keys && w in balances && w in types
    ensures var manual := types[w] == "manual";
            && SumMap(Side(Only(balances, keys), types, manual))
               == balances[w] + SumMap(Side(Only(balances, keys - {w}), types, manual))
            && SumMap(Side(Only(balances, keys), types, !manual))
               == SumMap(Side(Only(balances, keys - {w}), types, !manual))
  {
    var manual := types[w] == "manual";
    var side := Side(Only(balances, keys), types, manual);
    SumMapRemove(side, w);
    assert side - {w} == Side(Only(balances, keys - {w}), types, manual);
    assert Side(Only(balances, keys), types, !manual) == Side(Only(balances, keys - {w}), types, !manual);
  }

  /** `_history_sources`: the dictionary is read in whatever order it iterates. */
  method HistorySources(balances: map<int, real>, types: map<int, string>, cex: Option<real>) returns (s: Sources)
    requires balances.Keys <= types.Keys
    ensures s == SourcesOf(Ledger(balances, cex), types)
  {
    var onchain, manual := 0.0, 0.0;
    var left := balances.Keys;
    assert Only(balances, left) == balances;
    while left != {}
      invariant left <= balances.Keys
      invariant onchain + SumMap(Side(Only(balances, left), types, false)) == SumMap(Side(balances, types, false))
      invariant manual + SumMap(Side(Only(balances, left), types, true)) == SumMap(Side(balances, types, true))
      decreases left
    {
      var w := AnyOf(left);
      SideStep(balances, types, left, w);
      if types[w] == "manual" { manual := manual + balances[w]; } else { onchain := onchain + balances[w]; }
      left := left - {w};
    }
    assert Side(Only(balances, left), types, false) == map[] && Side(Only(balances, left), types, true) == map[];
    s := Sources(onchain, cex, manual);
  }

  ghost predicate EventAt(events: seq<Row>, k: int, t: int)
    requires 0 <= k <= |events|
  {
    exists e :: 0 <= e < k && events[e].at == t
  }

  /** The points' times are exactly the times of the first `k` events, in order. */
  ghost predicate Timeline(events: seq<Row>, k: int, points: seq<Point>)
    requires 0 <= k <= |events|
  {
    && Increasing(points)
    && forall t :: PointAt(points, t) <==> EventAt(events, k, t)
  }

  lemma TimelineExtend(events: seq<Row>, first: int, next: int, points: seq<Point>, point: Point)
    requires 0 <= first < next <= |events|
    requires Timeline(events, first, points)
    requires forall e :: first <= e < next ==> events[e].at == point.at
    requires forall e :: 0 <= e < first ==> events[e].at < point.at
    ensures Timeline(events, next, points + [point])
  {
    var more := points + [point];
    forall p | 0 <= p < |points| ensures points[p].at < point.at {
      assert PointAt(points, points[p].at);
    }
    forall t ensures PointAt(more, t) <==> EventAt(events, next, t) {
      PointAtSnoc(points, point, t);
      assert events[first].at == point.at;
      assert EventAt(events, next, t) <==> EventAt(events, first, t) || t == point.at;
    }
  }

  lemma PointAtSnoc(points: seq<Point>, point: Point, t: int)
    ensures PointAt(points + [point], t) <==> PointAt(points, t) || t == point.at
  {
    var more := points + [point];
    assert more[|points|] == point;
    if PointAt(points, t) {
      var p :| 0 <= p < |points| && points[p].at == t;
      assert more[p].at == t;
    }
  }

  /** The point shows the ledger after exactly the events up to its time. */
  ghost predicate Settled(seed: Ledger, types: map<int, string>, events: seq<Row>, point: Point) {
    exists n :: SettledAfter(seed, types, events, point, n)
  }

  ghost predicate SettledAfter(seed: Ledger, types: map<int, string>, events: seq<Row>, point: Point, n: int) {
    && 0 <= n <= |events|
    && (forall e :: 0 <= e < n ==> events[e].at <= point.at)
    && (forall e :: n <= e < |events| ==> events[e].at > point.at)
    && point == PointOf(PostAll(seed, events[..n]), types, point.at)
  }

  /** The inner loop: applies every event of one instant. */
  method ApplyInstant(ghost seed: Ledger, balances: map<int, real>, cex: Option<real>, types: map<int, string>,
          events: seq<Row>, first: int)
    returns (balanceByWallet: map<int, real>, cexUsd: Option<real>, eventIndex: int)
    requires 0 <= first < |events| && balances.Keys <= types.Keys
    requires forall e :: e in events && e.account.Wallet? ==> e.account.id in types
    requires Ledger(balances, cex) == PostAll(seed, events[..first])
    ensures first < eventIndex <= |events|
    ensures forall e :: first <= e < eventIndex ==> events[e].at == events[first].at
    ensures eventIndex < |events| ==> events[eventIndex].at != events[first].at
    ensures balanceByWallet.Keys <= types.Keys
    ensures Ledger(balanceByWallet, cexUsd) == PostAll(seed, events[..eventIndex])
  {
    balanceByWallet, cexUsd, eventIndex := balances, cex, first;
    var snapshotAt := events[first].at;
    while eventIndex < |events| && events[eventIndex].at == snapshotAt
      invariant first <= eventIndex <= |events|
      invariant forall e :: first <= e < eventIndex ==> events[e].at == snapshotAt
      invariant balanceByWallet.Keys <= types.Keys
      invariant Ledger(balanceByWallet, cexUsd) == PostAll(seed, events[..eventIndex])
    {
      var event := events[eventIndex];
      assert event in events;
      assert events[..eventIndex + 1][..eventIndex] == events[..eventIndex];
      match event.account {
        case Cex => cexUsd := Some(event.usd);
        case Wallet(w) => balanceByWallet := balanceByWallet[w := event.usd];
      }
      eventIndex := eventIndex + 1;
    }
  }

  method Sweep(seed: map<int, real>, cexSeed: Option<real>, types: map<int, string>, events: seq<Row>)
    returns (points: seq<Point>)
    requires Chain(EventLe, events)
    requires seed.Keys <= types.Keys
    requires forall e :: e in events && e.account.Wallet? ==> e.account.id in types
    ensures Timeline(events, |events|, points)
    ensures forall p :: 0 <= p < |points| ==> Settled(Ledger(seed, cexSeed), types, events, points[p])
  {
    ghost var start := Ledger(seed, cexSeed);
    var balanceByWallet, cexUsd, eventIndex := seed, cexSeed, 0;
    points := [];
    while eventIndex < |events|
      invariant 0 <= eventIndex <= |events|
      invariant balanceByWallet.Keys <= types.Keys
      invariant Ledger(balanceByWallet, cexUsd) == PostAll(start, events[..eventIndex])
      invariant Timeline(events, eventIndex, points)
      invariant forall p :: 0 <= p < |points| ==> Settled(start, types, events, points[p])
      invariant forall d, e :: 0 <= d < eventIndex <= e < |events| ==> events[d].at < events[e].at
    {
      ghost var first := eventIndex;
      var snapshotAt := events[eventIndex].at;
      balanceByWallet, cexUsd, eventIndex := ApplyInstant(start, balanceByWallet, cexUsd, types, events, eventIndex);
      LaterInstants(events, first, eventIndex);
      var sources := HistorySources(balanceByWallet, types, cexUsd);
      var point := Point(snapshotAt,
                         sources.onchainUsd + sources.manualUsd + (if cexUsd.Some? then cexUsd.value else 0.0),
                         sources);
      assert SettledAfter(start, types, events, point, eventIndex);
      TimelineExtend(events, first, eventIndex, points, point);
      points := points + [point];
    }
  }

  lemma LaterInstants(events: seq<Row>, first: int, next: int)
    requires Chain(EventLe, events)
    requires 0 <= first < next <= |events|
    requires next < |events| ==> events[next].at != events[first].at
    ensures forall e :: next <= e < |events| ==> events[e].at > events[first].at
  {
    forall e | next <= e < |events| ensures events[e].at > events[first].at {
      assert EventLe(events[first], events[next]);
      assert e == next || EventLe(events[next], events[e]);
    }
  }

  // ---------- Seeds ----------

  predicate AtIdGe(x: Row, y: Row) {
    AtIdLe(y, x)
  }

  lemma {:induction false} AdmissibleKeyed(db: Db, ids: set<int>, points: seq<Exchange.Point>)
    requires ValidDb(db)
    ensures Keyed(Admissible(db, ids, points))
  {
    var rows := Admissible(db, ids, points);
    var newRows := NewRows(db, ids);
    var first := FirstNew(newRows);
    NewRowsAreLate(db, ids);
    forall x, y | x in rows && y in rows && x.account == y.account && x.at == y.at && x.id == y.id
      ensures x == y
    {
      if x.account.Cex? {
        assert x in CexRows(points) && y in CexRows(points);
      } else if x in newRows {
        assert y in newRows;
        NewRowsById(db, ids, x, y);
      } else {
        assert y !in newRows;
        LegacyRowsById(db, ids, x, y);
      }
    }
  }

  lemma NewRowsById(db: Db, ids: set<int>, x: Row, y: Row)
    requires ValidDb(db) && x in NewRows(db, ids) && y in NewRows(db, ids) && x.id == y.id
    ensures x == y
  {
    var kept := Filter((s: NewSnapshot) => s.walletId in ids && s.status == "success", db.newRows);
    var i :| 0 <= i < |kept| && x == NewRows(db, ids)[i];
    var j :| 0 <= j < |kept| && y == NewRows(db, ids)[j];
    assert kept[i] in kept && kept[j] in kept;
    assert kept[i] in db.newRows && kept[j] in db.newRows;
  }

  lemma LegacyRowsById(db: Db, ids: set<int>, x: Row, y: Row)
    requires ValidDb(db) && x in LegacyRows(db, ids) && y in LegacyRows(db, ids) && x.id == y.id
    ensures x == y
  {
    var kept := Filter((s: LegacySnapshot) => s.walletId in ids, db.legacyRows);
    var i :| 0 <= i < |kept| && x == LegacyRows(db, ids)[i];
    var j :| 0 <= j < |kept| && y == LegacyRows(db, ids)[j];
    assert kept[i] in kept && kept[j] in kept;
    assert kept[i] in db.legacyRows && kept[j] in db.legacyRows;
  }

  lemma AdmissibleInScope(db: Db, ids: set<int>, points: seq<Exchange.Point>)
    ensures forall r :: r in Admissible(db, ids, points) && r.account.Wallet? ==> r.account.id in ids
  {
    var newKept := Filter((s: NewSnapshot) => s.walletId in ids && s.status == "success", db.newRows);
    var legacyKept := Filter((s: LegacySnapshot) => s.walletId in ids, db.legacyRows);
    assert forall i :: 0 <= i < |newKept| ==> newKept[i] in newKept;
    assert forall i :: 0 <= i < |legacyKept| ==> legacyKept[i] in legacyKept;
  }

  lemma LatestIsUnique(rows: seq<Row>, a: Account, t: int, r: Row)
    requires Keyed(rows) && IsLatest(rows, a, t, r)
    ensures HeldAt(rows, a, t) == Some(r.usd)
  {
  }

  /** The best countable legacy row of each wallet already seen. */
  ghost predicate LegacyBest(first: map<Account, int>, sorted: seq<Row>, n: int, seen: set<int>, best: map<int, Row>)
    requires 0 <= n <= |sorted|
  {
    && best.Keys == seen
    && (forall w :: w in seen ==>
          && best[w] in sorted && best[w].account == Wallet(w) && BeforeFirstNew(first, best[w])
          && forall q :: q in sorted && q.account == Wallet(w) && BeforeFirstNew(first, q) ==> AtIdLe(q, best[w]))
    && (forall i :: 0 <= i < n && BeforeFirstNew(first, sorted[i]) && sorted[i].account.Wallet? ==>
          sorted[i].account.id in seen)
  }

  /** The loop over legacy rows, newest first, that completes the seeds. */
  method SeedLegacy(first: map<Account, int>, sorted: seq<Row>, newSeeds: map<int, (int, real)>)
    returns (seeds: map<int, (int, real)>, ghost best: map<int, Row>)
    requires Chain(AtIdGe, sorted)
    requires forall r :: r in sorted ==> r.account.Wallet?
    requires forall w :: w in newSeeds ==> Wallet(w) in first && first[Wallet(w)] <= newSeeds[w].0
    ensures LegacyBest(first, sorted, |sorted|, best.Keys, best)
    ensures seeds.Keys == newSeeds.Keys + best.Keys
    ensures forall w :: w in newSeeds ==> seeds[w] == newSeeds[w]
    ensures forall w :: w in best && w !in newSeeds ==> seeds[w] == (best[w].at, best[w].usd)
  {
    seeds, best := newSeeds, map[];
    var legacySeen: set<int> := {};
    for n := 0 to |sorted|
      invariant LegacyBest(first, sorted, n, legacySeen, best)
      invariant seeds.Keys == newSeeds.Keys + legacySeen
      invariant forall w :: w in newSeeds ==> seeds[w] == newSeeds[w]
      invariant forall w :: w in best && w !in newSeeds ==> seeds[w] == (best[w].at, best[w].usd)
    {
      var row := sorted[n];
      assert row in sorted;
      var wallet := row.account.id;
      if wallet in legacySeen { continue; }
      if row.account in first && row.at >= first[row.account] { continue; }
      LegacyFirstIsBest(first, sorted, n, legacySeen, best);
      legacySeen := legacySeen + {wallet};
      best := best[wallet := row];
      if wallet !in seeds || row.at > seeds[wallet].0 {
        seeds := seeds[wallet := (row.at, row.usd)];
      }
    }
  }

  lemma LegacyFirstIsBest(first: map<Account, int>, sorted: seq<Row>, n: int, seen: set<int>, best: map<int, Row>)
    requires Chain(AtIdGe, sorted)
    requires 0 <= n < |sorted| && sorted[n].account.Wallet?
    requires LegacyBest(first, sorted, n, seen, best)
    requires sorted[n].account.id !in seen && BeforeFirstNew(first, sorted[n])
    ensures LegacyBest(first, sorted, n + 1, seen + {sorted[n].account.id}, best[sorted[n].account.id := sorted[n]])
  {
    forall q | q in sorted && q.account == sorted[n].account && BeforeFirstNew(first, q)
      ensures AtIdLe(q, sorted[n])
    {
      var i :| 0 <= i < |sorted| && sorted[i] == q;
      assert i >= n;
      assert i == n || AtIdGe(sorted[n], sorted[i]);
    }
  }

  /** Wallet rows are new rows, or legacy rows from before the wallet's first new row. */
  ghost predicate Merged(rows: seq<Row>, newRows: seq<Row>, legacy: seq<Row>, first: map<Account, int>) {
    && Keyed(rows)
    && (forall r :: r in rows <==> r in newRows || (r in legacy && BeforeFirstNew(first, r)))
    && (forall r :: r in newRows ==> !BeforeFirstNew(first, r))
  }

  ghost predicate RankedBefore(newRows: seq<Row>, since: int, ranked: map<Account, Row>) {
    && (forall r :: r in newRows && r.at < since ==> r.account in ranked && AtIdLe(r, ranked[r.account]))
    && (forall a :: a in ranked ==> ranked[a] in newRows && ranked[a].account == a && ranked[a].at < since)
  }

  ghost predicate BestLegacy(legacy: seq<Row>, first: map<Account, int>, since: int, r: Row) {
    && r in legacy && r.at < since && BeforeFirstNew(first, r)
    && forall q :: q in legacy && q.account == r.account && q.at < since && BeforeFirstNew(first, q) ==> AtIdLe(q, r)
  }

  /** The seed of an account: the ranked new row, else the best countable legacy row, else none. */
  lemma SeedIsLatest(rows: seq<Row>, newRows: seq<Row>, legacy: seq<Row>, first: map<Account, int>,
                     since: int, ranked: map<Account, Row>, a: Account, best: Option<Row>)
    requires Merged(rows, newRows, legacy, first)
    requires RankedBefore(newRows, since, ranked)
    requires best.Some? ==> best.value.account == a && BestLegacy(legacy, first, since, best.value)
    requires best.None? ==> forall q :: q in legacy && q.account == a && q.at < since ==> !BeforeFirstNew(first, q)
    ensures HeldAt(rows, a, since - 1) ==
            if a in ranked then Some(ranked[a].usd) else if best.Some? then Some(best.value.usd) else None
  {
    if a in ranked {
      var r := ranked[a];
      forall q | q in rows && q.account == a && q.at <= since - 1 ensures AtIdLe(q, r) {
        if q !in newRows {
          assert first[a] <= r.at;
        }
      }
      LatestIsUnique(rows, a, since - 1, r);
    } else if best.Some? {
      LatestIsUnique(rows, a, since - 1, best.value);
    }
  }

  lemma AdmissibleMerged(db: Db, ids: set<int>)
    requires ValidDb(db)
    ensures Merged(Admissible(db, ids, []), NewRows(db, ids), LegacyRows(db, ids), FirstNew(NewRows(db, ids)))
  {
    AdmissibleKeyed(db, ids, []);
    NewRowsAreLate(db, ids);
  }

  /** The rows ranked first before the window, as seeds. */
  method RankedSeeds(newRows: seq<Row>, ids: set<int>, since: int)
    returns (seeds: map<int, (int, real)>, ghost ranked: map<Account, Row>)
    ensures RankedBefore(newRows, since, ranked)
    ensures forall w :: w in seeds <==> w in ids && Wallet(w) in ranked
    ensures forall w :: w in seeds ==> seeds[w] == (ranked[Wallet(w)].at, ranked[Wallet(w)].usd)
    ensures forall w :: w in seeds ==>
              Wallet(w) in FirstNew(newRows) && FirstNew(newRows)[Wallet(w)] <= seeds[w].0
  {
    var before := RankOne(Filter(Until(since), newRows));
    ranked := before;
    seeds := map w | w in ids && Wallet(w) in before :: (before[Wallet(w)].at, before[Wallet(w)].usd);
    forall w | w in seeds
      ensures Wallet(w) in FirstNew(newRows) && FirstNew(newRows)[Wallet(w)] <= seeds[w].0
    {
      assert before[Wallet(w)] in newRows && before[Wallet(w)].account == Wallet(w);
    }
  }

  method SeedBalances(db: Db, ids: set<int>, since: int) returns (balances: map<int, real>)
    requires ValidDb(db)
    ensures balances == LedgerAt(Admissible(db, ids, []), ids, since - 1).balances
  {
    var newRows := NewRows(db, ids);
    var first := FirstNew(newRows);
    ghost var ranked, best;
    var newSeeds, seeds;
    newSeeds, ranked := RankedSeeds(newRows, ids, since);
    var legacy := LegacyRows(db, ids);
    var sorted := Sort(AtIdGe, Filter(Until(since), legacy));
    NewRowsAreLate(db, ids);
    NewestFirst(Filter(Until(since), legacy));
    seeds, best := SeedLegacy(first, sorted, newSeeds);
    balances := map w | w in seeds :: seeds[w].1;
    AdmissibleMerged(db, ids);
    AdmissibleInScope(db, ids, []);
    SeedsAreLatest(Admissible(db, ids, []), ids, newRows, legacy, first, since, sorted, ranked, best, balances);
  }

  lemma NewestFirst(rows: seq<Row>)
    ensures Chain(AtIdGe, Sort(AtIdGe, rows))
    ensures forall r :: r in Sort(AtIdGe, rows) <==> r in rows
  {
    var always := (x: Row, y: Row) => true;
    SortOrdered(AtIdGe, always, rows);
    SortContents(AtIdGe, rows);
    ChainWeaken(Ordered(AtIdGe, always), AtIdGe, Sort(AtIdGe, rows));
  }

  lemma {:induction false} SeedsAreLatest(
    rows: seq<Row>, ids: set<int>, newRows: seq<Row>, legacy: seq<Row>, first: map<Account, int>, since: int,
    sorted: seq<Row>, ranked: map<Account, Row>, best: map<int, Row>, balances: map<int, real>)
    requires Merged(rows, newRows, legacy, first)
    requires forall r :: r in rows && r.account.Wallet? ==> r.account.id in ids
    requires RankedBefore(newRows, since, ranked)
    requires forall r :: r in sorted <==> r in legacy && r.at < since
    requires LegacyBest(first, sorted, |sorted|, best.Keys, best)
    requires forall w :: w in balances <==> (w in ids && Wallet(w) in ranked) || w in best
    requires forall w :: w in balances ==>
               balances[w] == if w in ids && Wallet(w) in ranked then ranked[Wallet(w)].usd else best[w].usd
    ensures balances == LedgerAt(rows, ids, since - 1).balances
  {
    var want := LedgerAt(rows, ids, since - 1);
    forall w ensures Held(Ledger(balances, None), Wallet(w)) == Held(want, Wallet(w)) {
      var a := Wallet(w);
      HeldInScope(rows, ids, since - 1, a);
      assert a in ranked ==> ranked[a] in rows;
      SeedIsLatest(rows, newRows, legacy, first, since, ranked, a, if w in best then Some(best[w]) else None);
    }
    SameHoldings(Ledger(balances, None), want.(cex := None));
  }

  /** `next(... for point in reversed(points) if point.as_of < since)`. */
  method SeedCex(points: seq<Exchange.Point>, since: int) returns (cex: Option<real>)
    requires Exchange.NonDecreasing(points)
    ensures cex == HeldAt(CexRows(points), Cex, since - 1)
  {
    var n := |points|;
    while n > 0
      invariant 0 <= n <= |points|
      invariant forall i :: n <= i < |points| ==> points[i].asOf >= since
    {
      n := n - 1;
      if points[n].asOf < since {
        ghost var rows := CexRows(points);
        assert IsLatest(rows, Cex, since - 1, rows[n]);
        LatestIsUnique(rows, Cex, since - 1, rows[n]);
        return Some(points[n].totalUsd);
      }
    }
    return None;
  }

  // ---------- The whole request ----------

  lemma HeldBySameRows(rows: seq<Row>, others: seq<Row>, a: Account, t: int)
    requires Keyed(rows)
    requires forall r: Row :: r.account == a ==> (r in rows <==> r in others)
    ensures HeldAt(rows, a, t) == HeldAt(others, a, t)
  {
    var r := LatestRow(others, a, t);
    if r.Some? {
      LatestIsUnique(rows, a, t, r.value);
    }
  }

  lemma SeedLedger(db: Db, ids: set<int>, points: seq<Exchange.Point>, t: int)
    requires ValidDb(db)
    ensures LedgerAt(Admissible(db, ids, points), ids, t)
            == Ledger(LedgerAt(Admissible(db, ids, []), ids, t).balances, HeldAt(CexRows(points), Cex, t))
  {
    var rows, walletRows := Admissible(db, ids, points), Admissible(db, ids, []);
    var want := Ledger(LedgerAt(walletRows, ids, t).balances, HeldAt(CexRows(points), Cex, t));
    AdmissibleKeyed(db, ids, points);
    AdmissibleInScope(db, ids, points);
    AdmissibleInScope(db, ids, []);
    NewRowsAreLate(db, ids);
    forall a: Account ensures Held(LedgerAt(rows, ids, t), a) == Held(want, a) {
      HeldInScope(rows, ids, t, a);
      if a.Cex? {
        HeldBySameRows(rows, CexRows(points), a, t);
      } else {
        HeldInScope(walletRows, ids, t, a);
        HeldBySameRows(rows, walletRows, a, t);
      }
    }
    SameHoldings(LedgerAt(rows, ids, t), want);
  }

  lemma SweptIsHistory(rows: seq<Row>, types: map<int, string>, since: int, seed: Ledger, events: seq<Row>,
          points: seq<Point>)
    requires Keyed(rows)
    requires forall r :: r in rows && r.account.Wallet? ==> r.account.id in types
    requires Chain(Ordered(EventLe, TieById), events)
    requires forall r :: r in events <==> r in rows && r.at >= since
    requires seed == LedgerAt(rows, types.Keys, since - 1)
    requires Timeline(events, |events|, points)
    requires forall p :: 0 <= p < |points| ==> Settled(seed, types, events, points[p])
    ensures IsHistory(rows, types, since, points)
  {
    forall t ensures EventAt(events, |events|, t) <==> t >= since && RowAt(rows, t) {
      if t >= since && RowAt(rows, t) {
        var r :| r in rows && r.at == t;
        assert r in events;
        var e :| 0 <= e < |events| && events[e] == r;
      }
      if EventAt(events, |events|, t) {
        var e :| 0 <= e < |events| && events[e].at == t;
        assert events[e] in events;
      }
    }
    forall p | p in points ensures p == PointOf(LedgerAt(rows, types.Keys, p.at), types, p.at) {
      var i :| 0 <= i < |points| && points[i] == p;
      assert PointAt(points, p.at);
      var n :| SettledAfter(seed, types, events, points[i], n);
      PostAllIsLedgerAt(rows, types.Keys, seed, since, events, n, p.at);
    }
  }

  /** Group and all scope. */
  method AggregatedHistory(db: Db, types: map<int, string>, since: int, exchangePoints: seq<Exchange.Point>)
    returns (points: seq<Point>)
    requires ValidDb(db)
    requires Exchange.NonDecreasing(exchangePoints)
    ensures IsHistory(Admissible(db, types.Keys, exchangePoints), types, since, points)
  {
    var ids := types.Keys;
    ghost var rows := Admissible(db, ids, exchangePoints);
    AdmissibleInScope(db, ids, exchangePoints);
    if ids == {} && exchangePoints == [] {
      NothingAdmissible(db);
      return [];
    }
    var seed := SeedBalances(db, ids, since);
    var cexSeed := SeedCex(exchangePoints, since);
    var events := Events(db, ids, exchangePoints, since);
    EventsOrdered(db, ids, exchangePoints, since);
    ChainWeaken(Ordered(EventLe, TieById), EventLe, events);
    points := Sweep(seed, cexSeed, types, events);
    SeedLedger(db, ids, exchangePoints, since - 1);
    AdmissibleKeyed(db, ids, exchangePoints);
    SweptIsHistory(rows, types, since, Ledger(seed, cexSeed), events, points);
  }

  lemma NothingAdmissible(db: Db)
    ensures forall r :: r !in Admissible(db, {}, [])
  {
    AdmissibleInScope(db, {}, []);
    NewRowsAreLate(db, {});
  }

  /** All scope: the stored exchange valuations join the wallets' rows. */
  method AllHistory(db: Db, types: map<int, string>, since: int,
                    token: string, userId: int, reply: Exchange.Reply<seq<Exchange.Payload>>)
    returns (points: seq<Point>)
    requires ValidDb(db)
    ensures IsHistory(Admissible(db, types.Keys, Exchange.StoredPoints(token, userId, reply)), types, since, points)
  {
    var status, exchangePoints := Exchange.FetchExchangeHistory(token, userId, reply);
    points := AggregatedHistory(db, types, since, exchangePoints);
  }

  ghost function RowPoint(row: Row, walletId: int, walletType: string): Point {
    PointOf(Ledger(map[walletId := row.usd], None), map[walletId := walletType], row.at)
  }

  /** The wallet-scope loop: every row becomes a point of its own. */
  method RowPoints(rows: seq<Row>, walletId: int, walletType: string) returns (points: seq<Point>)
    ensures |points| == |rows|
    ensures forall i :: 0 <= i < |rows| ==>
              points[i] == RowPoint(rows[i], walletId, walletType) && points[i].totalUsd == rows[i].usd
              && points[i].at == rows[i].at
  {
    points := [];
    for n := 0 to |rows|
      invariant |points| == n
      invariant forall i :: 0 <= i < n ==>
        points[i] == RowPoint(rows[i], walletId, walletType) && points[i].totalUsd == rows[i].usd
        && points[i].at == rows[i].at
    {
      var sources := HistorySources(map[walletId := rows[n].usd], map[walletId := walletType], None);
      SingleWalletTotal(walletId, walletType, rows[n].usd);
      points := points + [Point(rows[n].at, rows[n].usd, sources)];
    }
  }

  /** Wallet scope: point by point the wallet's rows, so repeated instants repeat, and the last point of an
      instant is the aggregated one. */
  method WalletHistory(db: Db, walletId: int, walletType: string, since: int) returns (points: seq<Point>)
    requires ValidDb(db)
    ensures |points| == |HistoryRows(db, {walletId}, since)|
    ensures forall i :: 0 <= i < |points| ==>
              && points[i] == RowPoint(HistoryRows(db, {walletId}, since)[i], walletId, walletType)
              && points[i].totalUsd == HistoryRows(db, {walletId}, since)[i].usd
    ensures forall i, j :: 0 <= i < j < |points| ==> points[i].at <= points[j].at
    ensures forall t :: PointAt(points, t) <==> t >= since && RowAt(Admissible(db, {walletId}, []), t)
    ensures forall i :: 0 <= i < |points| && (i + 1 < |points| ==> points[i].at < points[i + 1].at) ==>
              points[i] == PointOf(LedgerAt(Admissible(db, {walletId}, []), {walletId}, points[i].at),
                                   map[walletId := walletType], points[i].at)
  {
    var rows := HistoryRows(db, {walletId}, since);
    HistoryRowsOrdered(db, {walletId}, since);
    points := RowPoints(rows, walletId, walletType);
    ghost var all := Admissible(db, {walletId}, []);
    AdmissibleKeyed(db, {walletId}, []);
    WalletRowsOnly(db, walletId);
    WalletTimes(all, since, rows, points);
    forall i | 0 <= i < |points| && (i + 1 < |points| ==> points[i].at < points[i + 1].at)
      ensures points[i] == PointOf(LedgerAt(all, {walletId}, points[i].at), map[walletId := walletType], points[i].at)
    {
      assert points[i].at == rows[i].at;
      WalletRowIsLatest(all, walletId, since, rows, i);
    }
  }

  lemma WalletRowsOnly(db: Db, walletId: int)
    ensures forall r :: r in Admissible(db, {walletId}, []) ==> r.account == Wallet(walletId)
  {
    AdmissibleInScope(db, {walletId}, []);
    NewRowsAreLate(db, {walletId});
  }

  lemma SingleWalletTotal(walletId: int, walletType: string, usd: real)
    ensures var types := map[walletId := walletType];
            var l := Ledger(map[walletId := usd], None);
            SumMap(Side(l.balances, types, false)) + SumMap(Side(l.balances, types, true)) == usd
  {
    var types := map[walletId := walletType];
    var b := map[walletId := usd];
    var manual := walletType == "manual";
    assert Side(b, types, manual) == b && Side(b, types, !manual) == map[];
    SumMapRemove(b, walletId);
    assert b - {walletId} == map[];
  }

  lemma WalletTimes(all: seq<Row>, since: int, rows: seq<Row>, points: seq<Point>)
    requires Chain(Ordered(EventLe, TieById), rows) && |points| == |rows|
    requires forall i :: 0 <= i < |rows| ==> points[i].at == rows[i].at
    requires forall r :: r in rows <==> r in all && r.at >= since
    ensures forall i, j :: 0 <= i < j < |points| ==> points[i].at <= points[j].at
    ensures forall t :: PointAt(points, t) <==> t >= since && RowAt(all, t)
  {
    forall i, j | 0 <= i < j < |points| ensures points[i].at <= points[j].at {
      assert EventLe(rows[i], rows[j]);
    }
    forall t ensures PointAt(points, t) <==> t >= since && RowAt(all, t) {
      if PointAt(points, t) {
        var i :| 0 <= i < |points| && points[i].at == t;
        assert rows[i] in rows;
      }
      if t >= since && RowAt(all, t) {
        var r :| r in all && r.at == t;
        assert r in rows;
        var i :| 0 <= i < |rows| && rows[i] == r;
        assert points[i].at == t;
      }
    }
  }

  lemma WalletRowIsLatest(all: seq<Row>, walletId: int, since: int, rows: seq<Row>, i: int)
    requires Keyed(all)
    requires forall r :: r in all ==> r.account == Wallet(walletId)
    requires Chain(Ordered(EventLe, TieById), rows) && 0 <= i < |rows|
    requires forall r :: r in rows <==> r in all && r.at >= since
    requires i + 1 < |rows| ==> rows[i].at < rows[i + 1].at
    ensures LedgerAt(all, {walletId}, rows[i].at) == Ledger(map[walletId := rows[i].usd], None)
  {
    var r := rows[i];
    assert r in rows;
    forall q | q in all && q.at <= r.at ensures AtIdLe(q, r) {
      if q.at >= since {
        assert q in rows;
        LastOfInstant(rows, i, q);
      }
    }
    LatestIsUnique(all, r.account, r.at, r);
    var want := Ledger(map[walletId := r.usd], None);
    forall a: Account ensures Held(LedgerAt(all, {walletId}, r.at), a) == Held(want, a) {
      HeldInScope(all, {walletId}, r.at, a);
    }
    SameHoldings(LedgerAt(all, {walletId}, r.at), want);
  }

  lemma LaterAreAfter(rows: seq<Row>, i: int)
    requires Chain(Ordered(EventLe, TieById), rows) && 0 <= i < |rows|
    requires i + 1 < |rows| ==> rows[i].at < rows[i + 1].at
    ensures forall j :: i < j < |rows| ==> rows[i].at < rows[j].at
  {
    forall j | i < j < |rows| ensures rows[i].at < rows[j].at {
      assert j == i + 1 || Ordered(EventLe, TieById)(rows[i + 1], rows[j]);
      assert j == i + 1 || EventLe(rows[i + 1], rows[j]);
    }
  }

  lemma LastOfInstant(rows: seq<Row>, i: int, q: Row)
    requires Chain(Ordered(EventLe, TieById), rows) && 0 <= i < |rows|
    requires i + 1 < |rows| ==> rows[i].at < rows[i + 1].at
    requires q in rows && q.account == rows[i].account && q.at <= rows[i].at
    ensures AtIdLe(q, rows[i])
  {
    LaterAreAfter(rows, i);
    var j :| 0 <= j < |rows| && rows[j] == q;
    if j < i {
      assert Ordered(EventLe, TieById)(rows[j], rows[i]);
      assert EventLe(rows[j], rows[i]);
      assert EventLe(rows[i], rows[j]) ==> TieById(rows[j], rows[i]);
    }
  }

  // ---------- Theorems about every history ----------

  ghost predicate AgreeByTime(p: seq<Point>, q: seq<Point>) {
    forall x, y :: x in p && y in q && x.at == y.at ==> x == y
  }

  /** A history is determined by the stored rows and the window. */
  lemma {:induction false} HistoryIsUnique(rows: seq<Row>, types: map<int, string>, since: int, p: seq<Point>,
          q: seq<Point>)
    requires IsHistory(rows, types, since, p) && IsHistory(rows, types, since, q)
    ensures p == q
  {
    SameTimesSamePoints(p, q);
  }

  lemma {:induction false} SameTimesSamePoints(p: seq<Point>, q: seq<Point>)
    requires Increasing(p) && Increasing(q) && AgreeByTime(p, q)
    requires forall t :: PointAt(p, t) <==> PointAt(q, t)
    ensures p == q
  {
    if p == [] {
      assert q != [] ==> PointAt(q, q[0].at);
    } else {
      assert PointAt(p, p[|p| - 1].at);
      assert q != [];
      var p', q' := p[..|p| - 1], q[..|q| - 1];
      var last := p[|p| - 1];
      SameLast(p, q);
      assert p == p' + [last] && q == q' + [last];
      forall t ensures PointAt(p', t) <==> PointAt(q', t) {
        FrontTimes(p, t);
        FrontTimes(q, t);
      }
      assert Increasing(p') && Increasing(q') && AgreeByTime(p', q');
      SameTimesSamePoints(p', q');
    }
  }

  lemma FrontTimes(p: seq<Point>, t: int)
    requires Increasing(p) && p != []
    ensures PointAt(p[..|p| - 1], t) <==> PointAt(p, t) && t != p[|p| - 1].at
  {
    var front, last := p[..|p| - 1], p[|p| - 1];
    assert p == front + [last];
    PointAtSnoc(front, last, t);
  }

  lemma SameLast(p: seq<Point>, q: seq<Point>)
    requires Increasing(p) && Increasing(q) && AgreeByTime(p, q) && p != [] && q != []
    requires forall t :: PointAt(p, t) <==> PointAt(q, t)
    ensures p[|p| - 1] == q[|q| - 1]
  {
    var x, y := p[|p| - 1], q[|q| - 1];
    assert PointAt(p, x.at) && PointAt(q, y.at);
    var i :| 0 <= i < |q| && q[i].at == x.at;
    var j :| 0 <= j < |p| && p[j].at == y.at;
    assert x in p && y in q;
  }

  // ---------- What the history shows, in terms of the stored rows ----------

  /** A successful snapshot counts at its own finish, else its run's finish, else its run's creation. */
  predicate ObservedWhen(s: NewSnapshot, at: int) {
    || s.finishedAt == Some(at)
    || (s.finishedAt == None && s.runFinishedAt == Some(at))
    || (s.finishedAt == None && s.runFinishedAt == None && s.runCreatedAt == at)
  }

  ghost predicate IsNew(db: Db, w: int, at: int, usd: real, id: int) {
    exists s :: s in db.newRows && s.walletId == w && s.status == "success"
                && ObservedWhen(s, at) && s.totalUsd == usd && s.id == id
  }

  ghost predicate IsLegacy(db: Db, w: int, at: int, usd: real, id: int) {
    && LegacySnapshot(id, w, at, usd) in db.legacyRows
    && forall s, t :: s in db.newRows && s.walletId == w && s.status == "success" && ObservedWhen(s, t) ==> at < t
  }

  /** A row is admissible exactly when it is a successful snapshot of a wallet in scope, or a legacy row from
      strictly before every such snapshot of its wallet, or an exchange point. */
  lemma {:induction false} AdmissibleMeaning(db: Db, ids: set<int>, points: seq<Exchange.Point>, r: Row)
    ensures r in Admissible(db, ids, points) <==>
              || (r.account.Wallet? && r.account.id in ids && IsNew(db, r.account.id, r.at, r.usd, r.id))
              || (r.account.Wallet? && r.account.id in ids && IsLegacy(db, r.account.id, r.at, r.usd, r.id))
              || (r.account.Cex? && 0 <= r.id < |points| && points[r.id] == Exchange.Point(r.at, r.usd))
  {
    NewRowMeaning(db, ids, r);
    LegacyRowMeaning(db, ids, r);
    CexRowMeaning(points, r);
    if r.account.Wallet? && r.account.id in ids {
      BeforeNewMeaning(db, ids, r);
    }
    NewRowsAreLate(db, ids);
  }

  lemma NewRowMeaning(db: Db, ids: set<int>, r: Row)
    ensures r in NewRows(db, ids) <==>
              r.account.Wallet? && r.account.id in ids && IsNew(db, r.account.id, r.at, r.usd, r.id)
  {
    var kept := Filter((s: NewSnapshot) => s.walletId in ids && s.status == "success", db.newRows);
    if r in NewRows(db, ids) {
      var i :| 0 <= i < |kept| && r == NewRows(db, ids)[i];
      assert kept[i] in kept && ObservedWhen(kept[i], r.at);
    }
    if r.account.Wallet? && r.account.id in ids && IsNew(db, r.account.id, r.at, r.usd, r.id) {
      var s :| s in db.newRows && s.walletId == r.account.id && s.status == "success"
               && ObservedWhen(s, r.at) && s.totalUsd == r.usd && s.id == r.id;
      assert s in kept;
      var i :| 0 <= i < |kept| && kept[i] == s;
      assert NewRows(db, ids)[i] == r;
    }
  }

  lemma LegacyRowMeaning(db: Db, ids: set<int>, r: Row)
    ensures r in LegacyRows(db, ids) <==>
              && r.account.Wallet? && r.account.id in ids
              && LegacySnapshot(r.id, r.account.id, r.at, r.usd) in db.legacyRows
  {
    var kept := Filter((s: LegacySnapshot) => s.walletId in ids, db.legacyRows);
    if r in LegacyRows(db, ids) {
      var i :| 0 <= i < |kept| && r == LegacyRows(db, ids)[i];
      assert kept[i] in kept;
    }
    if r.account.Wallet? && r.account.id in ids && LegacySnapshot(r.id, r.account.id, r.at, r.usd) in db.legacyRows {
      var i :| 0 <= i < |kept| && kept[i] == LegacySnapshot(r.id, r.account.id, r.at, r.usd);
      assert LegacyRows(db, ids)[i] == r;
    }
  }

  lemma CexRowMeaning(points: seq<Exchange.Point>, r: Row)
    ensures r in CexRows(points) <==>
              r.account.Cex? && 0 <= r.id < |points| && points[r.id] == Exchange.Point(r.at, r.usd)
  {
    if r.account.Cex? && 0 <= r.id < |points| && points[r.id] == Exchange.Point(r.at, r.usd) {
      assert CexRows(points)[r.id] == r;
    }
  }

  lemma BeforeNewMeaning(db: Db, ids: set<int>, r: Row)
    requires r.account.Wallet? && r.account.id in ids
    ensures BeforeFirstNew(FirstNew(NewRows(db, ids)), r) <==>
              forall s, t ::
                s in db.newRows && s.walletId == r.account.id && s.status == "success" && ObservedWhen(s, t) ==>
                  r.at < t
  {
    var newRows := NewRows(db, ids);
    var first := FirstNew(newRows);
    forall s, t | s in db.newRows && s.walletId == r.account.id && s.status == "success" && ObservedWhen(s, t)
      ensures Row(r.account, t, s.totalUsd, s.id) in newRows
    {
      NewRowMeaning(db, ids, Row(r.account, t, s.totalUsd, s.id));
    }
    if r.account in first {
      var q := FirstNewIsEarliest(newRows, r.account);
      NewRowMeaning(db, ids, q);
    }
  }

  /** The account's latest row at or before `t`: no other is later, or as late with a higher id. */
  ghost predicate ShowsLatest(rows: seq<Row>, a: Account, t: int, usd: real) {
    exists r :: r in rows && r.account == a && r.at <= t && r.usd == usd
                && forall q :: q in rows && q.account == a && q.at <= t ==>
                                 q.at < r.at || (q.at == r.at && q.id <= r.id)
  }

  /** Every point, read off the rows: which accounts it counts, with which balance, and how they add up. */
  lemma {:induction false} PointMeaning(rows: seq<Row>, types: map<int, string>, since: int, points: seq<Point>,
          p: Point)
    returns (balances: map<int, real>)
    requires IsHistory(rows, types, since, points) && p in points
    ensures p.at >= since
    ensures forall w :: w in balances <==> w in types && HasRowBy(rows, Wallet(w), p.at)
    ensures forall w :: w in balances ==> ShowsLatest(rows, Wallet(w), p.at, balances[w])
    ensures p.sources.cexUsd.None? <==> forall r :: r in rows && r.account == Cex ==> r.at > p.at
    ensures p.sources.cexUsd.Some? ==> ShowsLatest(rows, Cex, p.at, p.sources.cexUsd.value)
    ensures p.sources.onchainUsd == SumMap(map w | w in balances && types[w] != "manual" :: balances[w])
    ensures p.sources.manualUsd == SumMap(map w | w in balances && types[w] == "manual" :: balances[w])
    ensures p.totalUsd == SumMap(balances) + if p.sources.cexUsd.Some? then p.sources.cexUsd.value else 0.0
  {
    balances := LedgerAt(rows, types.Keys, p.at).balances;
    var i :| 0 <= i < |points| && points[i] == p;
    assert PointAt(points, p.at);
    BalancesMeaning(rows, types, p.at);
    LatestShows(rows, Cex, p.at);
    SidesAddUp(balances, types);
  }

  /** Every event time from the start of the window on, and no other time, has a point of its own. */
  lemma {:induction false} TimesMeaning(rows: seq<Row>, types: map<int, string>, since: int, points: seq<Point>)
    requires IsHistory(rows, types, since, points)
    ensures forall r :: r in rows && r.at >= since ==> exists i :: 0 <= i < |points| && points[i].at == r.at
    ensures forall i :: 0 <= i < |points| ==> since <= points[i].at && exists r :: r in rows && r.at == points[i].at
    ensures forall i, j :: 0 <= i < j < |points| ==> points[i].at < points[j].at
  {
    forall r | r in rows && r.at >= since
      ensures exists i :: 0 <= i < |points| && points[i].at == r.at
    {
      assert RowAt(rows, r.at);
      assert PointAt(points, r.at);
    }
    forall i | 0 <= i < |points|
      ensures since <= points[i].at && exists r :: r in rows && r.at == points[i].at
    {
      assert PointAt(points, points[i].at);
    }
  }

  lemma BalancesMeaning(rows: seq<Row>, types: map<int, string>, t: int)
    ensures var balances := LedgerAt(rows, types.Keys, t).balances;
            && (forall w :: w in balances <==> w in types && HasRowBy(rows, Wallet(w), t))
            && (forall w :: w in balances ==> ShowsLatest(rows, Wallet(w), t, balances[w]))
            && Side(balances, types, false) == (map w | w in balances && types[w] != "manual" :: balances[w])
            && Side(balances, types, true) == (map w | w in balances && types[w] == "manual" :: balances[w])
  {
    var balances := LedgerAt(rows, types.Keys, t).balances;
    forall w
      ensures w in balances <==> w in types && HasRowBy(rows, Wallet(w), t)
      ensures w in balances ==> ShowsLatest(rows, Wallet(w), t, balances[w])
    {
      BalanceMeaning(rows, types.Keys, t, w);
    }
    SidesMeaning(balances, types);
  }

  ghost predicate HasRowBy(rows: seq<Row>, a: Account, t: int) {
    exists r :: r in rows && r.account == a && r.at <= t
  }

  lemma BalanceMeaning(rows: seq<Row>, ids: set<int>, t: int, w: int)
    ensures var balances := LedgerAt(rows, ids, t).balances;
            && (w in balances <==> w in ids && HasRowBy(rows, Wallet(w), t))
            && (w in balances ==> ShowsLatest(rows, Wallet(w), t, balances[w]))
  {
    LatestShows(rows, Wallet(w), t);
  }

  lemma SidesMeaning(balances: map<int, real>, types: map<int, string>)
    requires balances.Keys <= types.Keys
    ensures Side(balances, types, false) == (map w | w in balances && types[w] != "manual" :: balances[w])
    ensures Side(balances, types, true) == (map w | w in balances && types[w] == "manual" :: balances[w])
  {
  }

  lemma LatestShows(rows: seq<Row>, a: Account, t: int)
    ensures LatestRow(rows, a, t).Some? ==> ShowsLatest(rows, a, t, LatestRow(rows, a, t).value.usd)
    ensures LatestRow(rows, a, t).None? <==> forall r :: r in rows && r.account == a ==> r.at > t
    ensures LatestRow(rows, a, t).Some? <==> HasRowBy(rows, a, t)
  {
    var best := LatestRow(rows, a, t);
    if best.Some? {
      assert IsLatest(rows, a, t, best.value);
    }
  }

  /** What is not on-chain is manual. */
  lemma {:induction false} SidesAddUp(balances: map<int, real>, types: map<int, string>)
    requires balances.Keys <= types.Keys
    ensures SumMap(Side(balances, types, false)) + SumMap(Side(balances, types, true)) == SumMap(balances)
    decreases |balances.Keys|
  {
    if balances.Keys == {} {
      assert balances == map[] && Side(balances, types, false) == map[] && Side(balances, types, true) == map[];
    } else {
      var w := Pick(balances.Keys);
      var rest := balances - {w};
      assert rest.Keys == balances.Keys - {w};
      SidesAddUp(rest, types);
      var manual := types[w] == "manual";
      assert Side(balances, types, !manual) == Side(rest, types, !manual);
      assert Side(balances, types, manual) - {w} == Side(rest, types, manual);
      SumMapRemove(Side(balances, types, manual), w);
      SumMapRemove(balances, w);
    }
  }

  /** Narrowing the window only drops points: the later history is the tail of the earlier one. */
  lemma {:induction false} WindowCut(rows: seq<Row>, types: map<int, string>, since: int, since2: int,
          p: seq<Point>, q: seq<Point>)
    requires since <= since2
    requires IsHistory(rows, types, since, p) && IsHistory(rows, types, since2, q)
    ensures exists k :: 0 <= k <= |p| && q == p[k..] && forall i :: 0 <= i < |p| ==> (p[i].at < since2 <==> i < k)
  {
    var k := FirstAtOrAfter(p, since2);
    var tail := p[k..];
    forall t ensures PointAt(tail, t) <==> PointAt(q, t) {
      if PointAt(tail, t) {
        var i :| 0 <= i < |tail| && tail[i].at == t;
        assert p[k + i].at == t;
        assert PointAt(p, t);
      }
      if PointAt(q, t) {
        assert PointAt(p, t);
        var i :| 0 <= i < |p| && p[i].at == t;
        assert tail[i - k].at == t;
      }
    }
    SameTimesSamePoints(tail, q);
  }

  lemma {:induction false} FirstAtOrAfter(p: seq<Point>, since: int) returns (k: nat)
    requires Increasing(p)
    ensures k <= |p| && forall i :: 0 <= i < |p| ==> (p[i].at < since <==> i < k)
  {
    k := 0;
    while k < |p| && p[k].at < since
      invariant k <= |p| && forall i :: 0 <= i < k ==> p[i].at < since
    {
      k := k + 1;
    }
  }
}
