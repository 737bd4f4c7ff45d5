/** Rebalancing suggestions: exact percentages, half-even cents, action labels and a canonical order. */
module Rebalancing {
  import opened Collections

  // ---------- Rounding to cents ----------

  /** Decimal's default ROUND_HALF_EVEN to an integer. */
  function RoundHalfEven(x: real): int {
    var floor := x.Floor;
    var rest := x - floor as real;
    if rest < 0.5 || (rest == 0.5 && floor % 2 == 0) then floor else floor + 1
  }

  /** `quantize(Decimal("0.01"))` */
  function Cents(x: real): real {
    RoundHalfEven(100.0 * x) as real / 100.0
  }

  function Abs(x: real): real {
    if x < 0.0 then -x else x
  }

  lemma CentsNear(x: real)
    ensures Abs(Cents(x) - x) <= 0.005
  {
  }

  /** The nearest whole number, and of two equally near ones the even one. */
  lemma HalfEvenMeaning(x: real)
    ensures var r := RoundHalfEven(x);
            && -0.5 <= x - r as real <= 0.5
            && (x - r as real == 0.5 || x - r as real == -0.5 ==> r % 2 == 0)
  {
  }

  /** A suggestion rounds to something positive exactly when it exceeds half a cent. */
  lemma CentsPositive(x: real)
    ensures Cents(x) > 0.0 <==> x > 0.005
  {
  }

  // ---------- Targets ----------

  datatype Target = Target(assetKey: string, symbol: string, pct: real)

  predicate KeyChar(c: char) {
    'a' <= c <= 'z' || 'A' <= c <= 'Z' || '0' <= c <= '9' || c in ":_-."
  }

  /** What the field validators let through: percentages have two decimals. */
  predicate ItemSchema(t: Target) {
    && 1 <= |t.assetKey| <= 200 && 1 <= |t.symbol| <= 32
    && (forall c :: c in t.assetKey ==> KeyChar(c))
    && 0.0 < t.pct <= 100.0
    && (100.0 * t.pct).Floor as real == 100.0 * t.pct
  }

  function Hundredths(n: int): real {
    n as real / 100.0
  }

  /** A validated target, field by field. */
  lemma ItemSchemaMeaning(t: Target)
    ensures ItemSchema(t) <==>
              && 1 <= |t.assetKey| <= 200 && 1 <= |t.symbol| <= 32
              && (forall c :: c in t.assetKey ==>
                    || '0' <= c <= '9' || 'A' <= c <= 'Z' || 'a' <= c <= 'z'
                    || c == ':' || c == '_' || c == '-' || c == '.')
              && 0.0 < t.pct <= 100.0 && (exists n :: t.pct == Hundredths(n))
  {
    if ItemSchema(t) {
      assert t.pct == Hundredths((100.0 * t.pct).Floor);
    }
    if n :| t.pct == Hundredths(n) {
      assert 100.0 * t.pct == n as real;
    }
  }

  function KeysOf(items: seq<Target>): (r: seq<string>)
    ensures |r| == |items| && forall i :: 0 <= i < |r| ==> r[i] == items[i].assetKey
  {
    seq(|items|, i requires 0 <= i < |items| => items[i].assetKey)
  }

  function SumPct(items: seq<Target>): real {
    if items == [] then 0.0 else SumPct(items[..|items| - 1]) + items[|items| - 1].pct
  }

  /** `PortfolioAllocationTargetsUpdate` */
  predicate ValidDistribution(items: seq<Target>) {
    && |items| <= 50
    && (forall t :: t in items ==> ItemSchema(t))
    && SetKeepsSize(KeysOf(items))
    && "__other__" !in KeysOf(items)
    && (items != [] ==> SumPct(items) == 100.0)
  }

  /** A distribution is valid exactly when its at most 50 items are, no key occurs twice or is the synthetic one,
      and the percentages of a non-empty one add up to 100. */
  lemma DistributionMeaning(items: seq<Target>)
    ensures ValidDistribution(items) <==>
              && |items| <= 50 && (forall t :: t in items ==> ItemSchema(t))
              && (forall i, j :: 0 <= i < j < |items| ==> items[i].assetKey != items[j].assetKey)
              && (forall t :: t in items ==> t.assetKey != "__other__")
              && (items == [] || SumPct(items) == 100.0)
  {
    SetSize(KeysOf(items));
    if exists t :: t in items && t.assetKey == "__other__" {
      var t :| t in items && t.assetKey == "__other__";
      var i :| 0 <= i < |items| && items[i] == t;
      assert KeysOf(items)[i] == "__other__";
    }
    if "__other__" in KeysOf(items) {
      var i :| 0 <= i < |items| && KeysOf(items)[i] == "__other__";
      assert items[i] in items;
    }
  }

  /** `{target.asset_key: target for target in targets}` */
  function ByKey(targets: seq<Target>): map<string, Target> {
    if targets == [] then map[]
    else ByKey(targets[..|targets| - 1])[targets[|targets| - 1].assetKey := targets[|targets| - 1]]
  }

  // ---------- Accumulating assets ----------

  datatype Asset = Asset(key: string, symbol: string, valueUsd: real)

  type Totals = map<string, (string, real)>

  ghost function Values(totals: Totals): map<string, real> {
    map k | k in totals :: totals[k].1
  }

  ghost function SumAssets(assets: seq<Asset>): real {
    if assets == [] then 0.0 else SumAssets(assets[..|assets| - 1]) + assets[|assets| - 1].valueUsd
  }

  ghost function SumFor(assets: seq<Asset>, key: string): real {
    if assets == [] then 0.0
    else SumFor(assets[..|assets| - 1], key)
         + if assets[|assets| - 1].key == key then assets[|assets| - 1].valueUsd else 0.0
  }

  /** The first asset of a key names it. */
  ghost predicate NamedByFirst(assets: seq<Asset>, key: string, symbol: string) {
    exists i :: 0 <= i < |assets| && assets[i].key == key && assets[i].symbol == symbol
                && forall j :: 0 <= j < i ==> assets[j].key != key
  }

  ghost predicate KeyOf(assets: seq<Asset>, key: string) {
    exists i :: 0 <= i < |assets| && assets[i].key == key
  }

  ghost predicate KeyAccumulated(assets: seq<Asset>, totals: Totals, k: string) {
    && (k in totals <==> KeyOf(assets, k))
    && SumFor(assets, k) == (if k in totals then totals[k].1 else 0.0)
    && (k in totals ==> NamedByFirst(assets, k, totals[k].0))
  }

  /** Per-key sums and names, and nothing lost from the grand total. */
  ghost predicate Accumulated(assets: seq<Asset>, totals: Totals) {
    && (forall k :: KeyAccumulated(assets, totals, k))
    && SumMap(Values(totals)) == SumAssets(assets)
  }

  lemma KeyOfSnoc(assets: seq<Asset>, asset: Asset, k: string)
    ensures KeyOf(assets + [asset], k) <==> KeyOf(assets, k) || k == asset.key
    ensures SumFor(assets + [asset], k) == SumFor(assets, k) + if asset.key == k then asset.valueUsd else 0.0
  {
    var more := assets + [asset];
    assert more[|assets|] == asset && more[..|assets|] == assets;
    if KeyOf(assets, k) {
      var i :| 0 <= i < |assets| && assets[i].key == k;
      assert more[i] == assets[i];
    }
  }

  function Added(totals: Totals, asset: Asset): Totals {
    var existing := if asset.key in totals then totals[asset.key] else (asset.symbol, 0.0);
    totals[asset.key := (existing.0, existing.1 + asset.valueUsd)]
  }

  lemma AddedKey(assets: seq<Asset>, totals: Totals, asset: Asset, k: string)
    requires KeyAccumulated(assets, totals, k)
    ensures KeyAccumulated(assets + [asset], Added(totals, asset), k)
  {
    KeyOfSnoc(assets, asset, k);
    var totals' := Added(totals, asset);
    if k in totals' {
      NamedByFirstSnoc(assets, asset, k, totals'[k].0);
    }
  }

  lemma AddedTotal(totals: Totals, asset: Asset)
    ensures SumMap(Values(Added(totals, asset))) == SumMap(Values(totals)) + asset.valueUsd
  {
    var value := Added(totals, asset)[asset.key].1;
    SumMapSet(Values(totals), asset.key, value);
    assert Values(Added(totals, asset)) == Values(totals)[asset.key := value];
  }

  /** `add_asset` */
  method AddAsset(ghost assets: seq<Asset>, totals: Totals, asset: Asset) returns (totals': Totals)
    requires Accumulated(assets, totals)
    ensures Accumulated(assets + [asset], totals')
  {
    var existing := if asset.key in totals then totals[asset.key] else (asset.symbol, 0.0);
    totals' := totals[asset.key := (existing.0, existing.1 + asset.valueUsd)];
    AddedTotal(totals, asset);
    assert (assets + [asset])[..|assets|] == assets;
    forall k ensures KeyAccumulated(assets + [asset], totals', k) {
      AddedKey(assets, totals, asset, k);
    }
  }

  /** The asset part of `_allocation_for_wallets`: totals per key, and a total equal to their sum. */
  method Accumulate(assets: seq<Asset>) returns (totals: Totals, total: real)
    ensures Accumulated(assets, totals)
    ensures total == SumMap(Values(totals)) == SumAssets(assets)
  {
    totals := map[];
    assert Values(totals) == map[];
    for n := 0 to |assets|
      invariant Accumulated(assets[..n], totals)
    {
      assert assets[..n + 1] == assets[..n] + [assets[n]];
      totals := AddAsset(assets[..n], totals, assets[n]);
    }
    assert assets[..|assets|] == assets;
    total := SumValues(totals);
  }

  lemma NamedByFirstSnoc(assets: seq<Asset>, asset: Asset, key: string, symbol: string)
    ensures NamedByFirst(assets, key, symbol) ==> NamedByFirst(assets + [asset], key, symbol)
    ensures asset.key == key && asset.symbol == symbol && !KeyOf(assets, key) ==>
              NamedByFirst(assets + [asset], key, symbol)
  {
    var more := assets + [asset];
    assert more[|assets|] == asset;
    if NamedByFirst(assets, key, symbol) {
      var i :| 0 <= i < |assets| && assets[i].key == key && assets[i].symbol == symbol
               && forall j :: 0 <= j < i ==> assets[j].key != key;
      assert more[i] == assets[i];
    }
  }

  /** `sum(value for _, value in asset_totals.values())` */
  method SumValues(totals: Totals) returns (total: real)
    ensures total == SumMap(Values(totals))
  {
    total := 0.0;
    var left := totals.Keys;
    ghost var values := Values(totals);
    assert values - (totals.Keys - left) == values;
    while left != {}
      invariant left <= totals.Keys
      invariant total + SumMap(values - (totals.Keys - left)) == SumMap(values)
      decreases left
    {
      var k := AnyOf(left);
      SumMapRemove(values - (totals.Keys - left), k);
      assert values - (totals.Keys - left) - {k} == values - (totals.Keys - (left - {k}));
      total := total + totals[k].1;
      left := left - {k};
    }
    assert values - (totals.Keys - left) == map[];
  }

  lemma {:induction false} SumMapSet(m: map<string, real>, k: string, v: real)
    ensures SumMap(m[k := v]) == SumMap(m) - (if k in m then m[k] else 0.0) + v
  {
    SumMapRemove(m[k := v], k);
    assert m[k := v] - {k} == m - {k};
    if k in m { SumMapRemove(m, k); } else { assert m - {k} == m; }
  }

  // ---------- The list ----------

  datatype Action = WithinTarget | Increase | Reduce

  /** Percentages are exact here; the API shows them rounded. */
  datatype Item = Item(
    assetKey: string, symbol: string, currentUsd: real, currentPct: real, targetPct: real,
    deviationPct: real, suggestedUsd: real, action: Action)

  const TOLERANCE_PCT := 1.0

  function CurrentUsd(totals: Totals, key: string): real {
    if key in totals then totals[key].1 else 0.0
  }

  function TargetPct(targets: map<string, Target>, key: string): real {
    if key in targets then targets[key].pct else 0.0
  }

  function ExactSuggestion(total: real, targetPct: real, currentUsd: real): real {
    total * targetPct / 100.0 - currentUsd
  }

  function ItemFor(totals: Totals, targets: map<string, Target>, total: real, key: string): Item
    requires total > 0.0
  {
    var symbol := if key in totals then totals[key].0 else if key in targets then targets[key].symbol else key;
    var currentUsd := CurrentUsd(totals, key);
    var targetPct := TargetPct(targets, key);
    var currentPct := currentUsd / total * 100.0;
    var deviationPct := currentPct - targetPct;
    var suggestedUsd := Cents(ExactSuggestion(total, targetPct, currentUsd));
    Item(key, symbol, currentUsd, currentPct, targetPct, deviationPct, suggestedUsd,
         ActionFor(deviationPct, suggestedUsd))
  }

  function ActionFor(deviationPct: real, suggestedUsd: real): Action {
    if Abs(deviationPct) <= TOLERANCE_PCT then WithinTarget else if suggestedUsd > 0.0 then Increase else Reduce
  }

  /** Every field of an item: named by the holdings, else by the target, else by the key; its share of the total and
      how far that is from the target; the exact suggestion, to the nearest cent. */
  lemma ItemMeaning(totals: Totals, targets: map<string, Target>, total: real, key: string)
    requires total > 0.0
    ensures var x := ItemFor(totals, targets, total, key);
            && x.assetKey == key
            && x.symbol == (if key in totals then totals[key].0
                            else if key in targets then targets[key].symbol else key)
            && x.currentUsd == (if key in totals then totals[key].1 else 0.0)
            && x.targetPct == (if key in targets then targets[key].pct else 0.0)
            && x.currentPct * total == 100.0 * x.currentUsd
            && x.deviationPct == x.currentPct - x.targetPct
            && x.suggestedUsd == Hundredths(RoundHalfEven(100.0 * ExactSuggestion(total, x.targetPct, x.currentUsd)))
  {
    PercentBack(CurrentUsd(totals, key), total);
  }

  /** In hundredths: the target's share of the total less what is held. */
  lemma ExactMeaning(total: real, targetPct: real, currentUsd: real)
    ensures 100.0 * ExactSuggestion(total, targetPct, currentUsd) == total * targetPct - 100.0 * currentUsd
  {
  }

  lemma PercentBack(usd: real, total: real)
    requires total > 0.0
    ensures usd / total * 100.0 * total == 100.0 * usd
  {
    var share := usd / total;
    assert share * total == usd;
    assert share * 100.0 * total == 100.0 * (share * total);
  }

  /** Python's `<=` on strings: lexicographic by code point. */
  predicate StringLe(a: string, b: string) {
    a == [] || (b != [] && (a[0] < b[0] || (a[0] == b[0] && StringLe(a[1..], b[1..]))))
  }

  /** The key (-abs(suggested_usd), asset_key). */
  predicate ItemLe(x: Item, y: Item) {
    Abs(x.suggestedUsd) > Abs(y.suggestedUsd)
    || (Abs(x.suggestedUsd) == Abs(y.suggestedUsd) && StringLe(x.assetKey, y.assetKey))
  }

  lemma {:induction false} StringLeTotal(a: string, b: string)
    ensures StringLe(a, b) || StringLe(b, a)
    ensures StringLe(a, b) && StringLe(b, a) ==> a == b
  {
    if a != [] && b != [] {
      StringLeTotal(a[1..], b[1..]);
      assert a == [a[0]] + a[1..] && b == [b[0]] + b[1..];
    }
  }

  lemma {:induction false} StringLeTransitive(a: string, b: string, c: string)
    requires StringLe(a, b) && StringLe(b, c)
    ensures StringLe(a, c)
  {
    if a != [] && a[0] == b[0] && b[0] == c[0] {
      StringLeTransitive(a[1..], b[1..], c[1..]);
    }
  }

  lemma ItemLeOrder()
    ensures TotalPreorder(ItemLe)
  {
    forall x, y ensures ItemLe(x, y) || ItemLe(y, x) {
      StringLeTotal(x.assetKey, y.assetKey);
    }
    forall x, y, z | ItemLe(x, y) && ItemLe(y, z) ensures ItemLe(x, z) {
      if StringLe(x.assetKey, y.assetKey) && StringLe(y.assetKey, z.assetKey) {
        StringLeTransitive(x.assetKey, y.assetKey, z.assetKey);
      }
    }
  }

  /** The strings agree up to place `k` and the first has the smaller character there. */
  ghost predicate SmallerAt(a: string, b: string, k: int) {
    0 <= k < |a| && k < |b| && a[..k] == b[..k] && a[k] < b[k]
  }

  lemma SmallerShifts(a: string, b: string, k: int)
    requires a != [] && b != [] && a[0] == b[0]
    ensures SmallerAt(a, b, k) ==> SmallerAt(a[1..], b[1..], k - 1)
    ensures SmallerAt(a[1..], b[1..], k) ==> SmallerAt(a, b, k + 1)
  {
    if SmallerAt(a, b, k) {
      assert k > 0;
      assert a[1..][..k - 1] == a[..k][1..] && b[1..][..k - 1] == b[..k][1..];
    }
    if SmallerAt(a[1..], b[1..], k) {
      assert a[..k + 1] == [a[0]] + a[1..][..k] && b[..k + 1] == [b[0]] + b[1..][..k];
    }
  }

  lemma PrefixShifts(a: string, b: string)
    requires a != [] && b != [] && a[0] == b[0]
    ensures a <= b <==> a[1..] <= b[1..]
  {
    assert a == [a[0]] + a[1..] && b == [b[0]] + b[1..];
  }

  /** One string comes no later than another exactly when it is a prefix of it or has the smaller character where
      they first differ. */
  lemma {:induction false} StringLeMeaning(a: string, b: string)
    ensures StringLe(a, b) <==> a <= b || exists k :: SmallerAt(a, b, k)
  {
    if a != [] && b != [] {
      if a[0] == b[0] {
        StringLeMeaning(a[1..], b[1..]);
        PrefixShifts(a, b);
        if k :| SmallerAt(a, b, k) {
          SmallerShifts(a, b, k);
        }
        if k :| SmallerAt(a[1..], b[1..], k) {
          SmallerShifts(a, b, k);
        }
      } else {
        assert a[0] < b[0] ==> SmallerAt(a, b, 0);
      }
    }
  }

  /** In a list the suggestions of greater size come first, and among equals the key that comes earlier. */
  lemma ListOrderMeaning(items: seq<Item>, totals: Totals, targets: map<string, Target>, total: real)
    requires total > 0.0 && IsList(items, totals, targets, total)
    ensures forall i, j :: 0 <= i < j < |items| ==>
              var x, y := items[i].suggestedUsd, items[j].suggestedUsd;
              var bigger, other := if x < 0.0 then -x else x, if y < 0.0 then -y else y;
              bigger > other || (bigger == other && StringLe(items[i].assetKey, items[j].assetKey))
  {
    forall i, j | 0 <= i < j < |items| ensures ItemLe(items[i], items[j]) {
    }
  }

  predicate Apart(x: Item, y: Item) {
    x.assetKey != y.assetKey
  }

  /** Exactly one item per key of the union. */
  ghost predicate OnePerKey(items: seq<Item>, totals: Totals, targets: map<string, Target>, total: real)
    requires total > 0.0
  {
    && Chain(Apart, items)
    && (forall x :: x in items ==>
          x.assetKey in totals.Keys + targets.Keys && x == ItemFor(totals, targets, total, x.assetKey))
    && (forall k :: k in totals.Keys + targets.Keys ==> ItemFor(totals, targets, total, k) in items)
  }

  ghost predicate IsList(items: seq<Item>, totals: Totals, targets: map<string, Target>, total: real)
    requires total > 0.0
  {
    Chain(ItemLe, items) && OnePerKey(items, totals, targets, total)
  }

  datatype Status = NotApplicable | NotConfigured | Empty | Ready | Incomplete

  /** The loop over the unordered key set. */
  method CollectItems(totals: Totals, targets: map<string, Target>, total: real) returns (items: seq<Item>)
    requires total > 0.0
    ensures OnePerKey(items, totals, targets, total)
  {
    items := [];
    var keys := totals.Keys + targets.Keys;
    ghost var all := keys;
    while keys != {}
      invariant keys <= all
      invariant Chain(Apart, items)
      invariant forall x :: x in items ==> x.assetKey in all - keys && x == ItemFor(totals, targets, total, x.assetKey)
      invariant forall k :: k in all - keys ==> ItemFor(totals, targets, total, k) in items
      decreases keys
    {
      var key := AnyOf(keys);
      items := items + [ItemFor(totals, targets, total, key)];
      keys := keys - {key};
    }
  }

  lemma SortedIsList(items: seq<Item>, totals: Totals, targets: map<string, Target>, total: real)
    requires total > 0.0 && OnePerKey(items, totals, targets, total)
    ensures IsList(Sort(ItemLe, items), totals, targets, total)
  {
    var always := (x: Item, y: Item) => true;
    ItemLeOrder();
    SortOrdered(ItemLe, always, items);
    SortContents(ItemLe, items);
    ChainWeaken(Ordered(ItemLe, always), ItemLe, Sort(ItemLe, items));
    SortKeepsChain(ItemLe, Apart, items);
  }

  /** `_build_rebalancing` */
  method BuildRebalancing(totals: Totals, total: real, complete: bool, targets: Option<seq<Target>>)
    returns (status: Status, items: seq<Item>)
    ensures status == NotApplicable <==> targets.None?
    ensures status == NotConfigured <==> targets == Some([])
    ensures status == Empty <==> targets.Some? && targets.value != [] && total <= 0.0
    ensures status == Ready || status == Incomplete ==>
              && targets.Some? && total > 0.0 && (status == Ready <==> complete)
              && IsList(items, totals, ByKey(targets.value), total)
    ensures status != Ready && status != Incomplete ==> items == []
  {
    if targets.None? { return NotApplicable, []; }
    if targets.value == [] { return NotConfigured, []; }
    if total <= 0.0 { return Empty, []; }
    var byKey := ByKey(targets.value);
    items := CollectItems(totals, byKey, total);
    SortedIsList(items, totals, byKey, total);
    items := Sort(ItemLe, items);
    status := if complete then Ready else Incomplete;
  }

  // ---------- The list is determined by totals and targets ----------

  lemma {:induction false} ComparingEqual(x: Item, y: Item)
    ensures ItemLe(x, y) && ItemLe(y, x) ==> x.assetKey == y.assetKey
  {
    StringLeTotal(x.assetKey, y.assetKey);
  }

  /** Items of one list have different keys, so they never compare equal: its contents fix the list. */
  lemma {:induction false} SameContentsSameList(p: seq<Item>, q: seq<Item>)
    requires Chain(ItemLe, p) && Chain(ItemLe, q) && Chain(Apart, p) && Chain(Apart, q)
    requires forall x :: x in p <==> x in q
    ensures p == q
  {
    if p == [] {
      HeadIsIn(q);
    } else {
      assert p[0] in q && q[0] in p;
      var i :| 0 <= i < |q| && q[i] == p[0];
      var j :| 0 <= j < |p| && p[j] == q[0];
      assert ItemLe(p[0], p[j]) || j == 0;
      assert ItemLe(q[0], q[i]) || i == 0;
      assert Apart(p[0], p[j]) || j == 0;
      ComparingEqual(p[0], q[0]);
      assert p[0] == q[0];
      TailContents(p);
      TailContents(q);
      SameContentsSameList(p[1..], q[1..]);
      assert p == [p[0]] + p[1..] && q == [q[0]] + q[1..];
    }
  }

  lemma HeadIsIn(q: seq<Item>)
    ensures q != [] ==> q[0] in q
  {
  }

  lemma TailContents(p: seq<Item>)
    requires p != [] && Chain(ItemLe, p) && Chain(Apart, p)
    ensures Chain(ItemLe, p[1..]) && Chain(Apart, p[1..])
    ensures forall x :: x in p[1..] <==> x in p && x != p[0]
  {
    assert forall i :: 0 <= i < |p[1..]| ==> p[1..][i] == p[i + 1] && Apart(p[0], p[i + 1]);
    assert p == [p[0]] + p[1..];
  }

  /** Whatever order the key set was iterated in, the result is the same. */
  lemma {:induction false} ListIsUnique(p: seq<Item>, q: seq<Item>, totals: Totals, targets: map<string, Target>,
          total: real)
    requires total > 0.0 && IsList(p, totals, targets, total) && IsList(q, totals, targets, total)
    ensures p == q
  {
    SameContentsSameList(p, q);
  }

  // ---------- Conservation ----------

  ghost function Sum(f: Item -> real, items: seq<Item>): real {
    if items == [] then 0.0 else f(items[0]) + Sum(f, items[1..])
  }

  function CurrentOf(): Item -> real { (x: Item) => x.currentUsd }

  function TargetOf(): Item -> real { (x: Item) => x.targetPct }

  function DeviationOf(): Item -> real { (x: Item) => x.deviationPct }

  function SuggestedOf(): Item -> real { (x: Item) => x.suggestedUsd }

  /** The suggestion before rounding. */
  function ExactOf(total: real): Item -> real {
    (x: Item) => ExactSuggestion(total, x.targetPct, x.currentUsd)
  }

  ghost function Pcts(targets: map<string, Target>): map<string, real> {
    map k | k in targets :: targets[k].pct
  }

  function ValueAt(m: map<string, real>, k: string): real {
    if k in m then m[k] else 0.0
  }

  /** Every item reads its key's entry of `m`. */
  ghost predicate Reads(f: Item -> real, m: map<string, real>, items: seq<Item>) {
    forall x :: x in items ==> f(x) == ValueAt(m, x.assetKey)
  }

  ghost predicate HasKey(items: seq<Item>, k: string) {
    exists x :: x in items && x.assetKey == k
  }

  ghost predicate Covers(items: seq<Item>, m: map<string, real>) {
    forall k :: k in m ==> HasKey(items, k)
  }

  lemma RestOfItems(f: Item -> real, m: map<string, real>, items: seq<Item>)
    requires items != [] && Chain(Apart, items) && Reads(f, m, items)
    ensures Chain(Apart, items[1..]) && Reads(f, m - {items[0].assetKey}, items[1..])
  {
    var rest := items[1..];
    assert forall i :: 0 <= i < |rest| ==> rest[i] == items[i + 1] && Apart(items[0], items[i + 1]);
  }

  lemma RestCovers(m: map<string, real>, items: seq<Item>)
    requires items != [] && Covers(items, m)
    ensures Covers(items[1..], m - {items[0].assetKey})
  {
    var k, rest := items[0].assetKey, items[1..];
    forall k' | k' in m - {k} ensures HasKey(rest, k') {
      assert HasKey(items, k');
      var x :| x in items && x.assetKey == k';
      assert items == [items[0]] + rest;
      assert x in rest;
    }
  }

  lemma WithoutKey(m: map<string, real>, k: string)
    ensures SumMap(m) == ValueAt(m, k) + SumMap(m - {k})
  {
    if k in m { SumMapRemove(m, k); } else { assert m - {k} == m; }
  }

  /** Summing over the items is summing over the dictionary they read. */
  lemma {:induction false} SumIsSumMap(f: Item -> real, m: map<string, real>, items: seq<Item>)
    requires Chain(Apart, items) && Reads(f, m, items) && Covers(items, m)
    ensures Sum(f, items) == SumMap(m)
    decreases |items|
  {
    if items == [] {
      assert forall k :: k in m ==> HasKey(items, k);
      NoneIn(m.Keys);
      assert m == map[];
    } else {
      var k := items[0].assetKey;
      RestOfItems(f, m, items);
      RestCovers(m, items);
      SumIsSumMap(f, m - {k}, items[1..]);
      assert items[0] in items && f(items[0]) == ValueAt(m, k);
      WithoutKey(m, k);
    }
  }

  lemma OnePerKeyCovers(items: seq<Item>, totals: Totals, targets: map<string, Target>, total: real)
    requires total > 0.0 && OnePerKey(items, totals, targets, total)
    ensures Covers(items, Values(totals)) && Covers(items, Pcts(targets))
    ensures Reads(CurrentOf(), Values(totals), items) && Reads(TargetOf(), Pcts(targets), items)
  {
    forall k ensures k in totals.Keys + targets.Keys ==> HasKey(items, k) {
      assert k in totals.Keys + targets.Keys ==> ItemFor(totals, targets, total, k) in items;
    }
  }

  /** With no key twice, every target is found under its own key. */
  lemma {:induction false} ByKeyMeaning(targets: seq<Target>, i: nat)
    requires Distinct(KeysOf(targets)) && i < |targets|
    ensures targets[i].assetKey in ByKey(targets) && ByKey(targets)[targets[i].assetKey] == targets[i]
  {
    var n := |targets| - 1;
    var rest := targets[..n];
    assert forall j, k :: 0 <= j < k < n ==> KeysOf(targets)[j] != KeysOf(targets)[k];
    if i < n {
      assert KeysOf(targets)[i] != KeysOf(targets)[n];
      ByKeyMeaning(rest, i);
    }
  }

  lemma {:induction false} DistinctKeysSum(targets: seq<Target>)
    requires Distinct(KeysOf(targets))
    ensures SumMap(Pcts(ByKey(targets))) == SumPct(targets)
    ensures forall k :: k in ByKey(targets) <==> k in KeysOf(targets)
  {
    if targets == [] {
      assert Pcts(ByKey(targets)) == map[];
    } else {
      var rest, last := targets[..|targets| - 1], targets[|targets| - 1];
      assert KeysOf(targets) == KeysOf(rest) + [last.assetKey];
      assert forall i, j :: 0 <= i < j < |rest| ==> KeysOf(targets)[i] != KeysOf(targets)[j];
      DistinctKeysSum(rest);
      assert last.assetKey !in KeysOf(rest);
      SumMapSet(Pcts(ByKey(rest)), last.assetKey, last.pct);
      assert Pcts(ByKey(targets)) == Pcts(ByKey(rest))[last.assetKey := last.pct];
    }
  }

  lemma Distribute(total: real, current: real, currents: real, target: real, targets: real)
    requires total > 0.0
    ensures (current / total * 100.0 - target) + (currents / total * 100.0 - targets)
            == (current + currents) / total * 100.0 - (target + targets)
    ensures ExactSuggestion(total, target, current) + ExactSuggestion(total, targets, currents)
            == ExactSuggestion(total, target + targets, current + currents)
  {
  }

  lemma {:induction false} SumsAreLinear(items: seq<Item>, total: real)
    requires total > 0.0
    requires forall x :: x in items ==> x.deviationPct == x.currentUsd / total * 100.0 - x.targetPct
    ensures Sum(DeviationOf(), items) == Sum(CurrentOf(), items) / total * 100.0 - Sum(TargetOf(), items)
    ensures Sum(ExactOf(total), items) == ExactSuggestion(total, Sum(TargetOf(), items), Sum(CurrentOf(), items))
  {
    if items != [] {
      SumsAreLinear(items[1..], total);
      Distribute(total, items[0].currentUsd, Sum(CurrentOf(), items[1..]),
                 items[0].targetPct, Sum(TargetOf(), items[1..]));
      assert items[0] in items;
    }
  }

  ghost predicate Rounded(items: seq<Item>, total: real) {
    forall x :: x in items ==> x.suggestedUsd == Cents(ExactOf(total)(x))
  }

  lemma ListIsRounded(items: seq<Item>, totals: Totals, targets: map<string, Target>, total: real)
    requires total > 0.0 && OnePerKey(items, totals, targets, total)
    ensures Rounded(items, total)
  {
  }

  lemma {:induction false} RoundingDrift(items: seq<Item>, total: real)
    requires Rounded(items, total)
    ensures 200.0 * Abs(Sum(SuggestedOf(), items) - Sum(ExactOf(total), items)) <= |items| as real
  {
    if items != [] {
      RoundingDrift(items[1..], total);
      CentsNear(ExactOf(total)(items[0]));
      assert items[0] in items;
    }
  }

  lemma {:induction false} ExactSuggestionsCancel(items: seq<Item>, totals: Totals, total: real, targets: seq<Target>)
    requires ValidDistribution(targets) && targets != []
    requires total > 0.0 && total == SumMap(Values(totals))
    requires OnePerKey(items, totals, ByKey(targets), total)
    ensures Sum(ExactOf(total), items) == 0.0
  {
    SumsOverList(items, totals, total, targets);
    SumsAreLinear(items, total);
    WholeIsHundred(total);
  }

  /** What is above target is below it elsewhere: deviations cancel over the list, and the rounded
      suggestions of n items come within n half-cents of cancelling. */
  lemma {:induction false} Conservation(items: seq<Item>, totals: Totals, total: real, targets: seq<Target>)
    requires ValidDistribution(targets) && targets != []
    requires total > 0.0 && total == SumMap(Values(totals))
    requires OnePerKey(items, totals, ByKey(targets), total)
    ensures Sum(DeviationOf(), items) == 0.0
    ensures 200.0 * Abs(Sum(SuggestedOf(), items)) <= |items| as real
  {
    DeviationsCancel(items, totals, total, targets);
    ExactSuggestionsCancel(items, totals, total, targets);
    ListIsRounded(items, totals, ByKey(targets), total);
    RoundedDrift(items, total);
  }

  lemma RoundedDrift(items: seq<Item>, total: real)
    requires Rounded(items, total) && Sum(ExactOf(total), items) == 0.0
    ensures 200.0 * Abs(Sum(SuggestedOf(), items)) <= |items| as real
  {
    RoundingDrift(items, total);
    DriftFromZero(Sum(SuggestedOf(), items), Sum(ExactOf(total), items), |items| as real);
  }

  lemma DriftFromZero(rounded: real, exact: real, bound: real)
    requires exact == 0.0 && 200.0 * Abs(rounded - exact) <= bound
    ensures 200.0 * Abs(rounded) <= bound
  {
  }

  lemma {:induction false} DeviationsCancel(items: seq<Item>, totals: Totals, total: real, targets: seq<Target>)
    requires ValidDistribution(targets) && targets != []
    requires total > 0.0 && total == SumMap(Values(totals))
    requires OnePerKey(items, totals, ByKey(targets), total)
    ensures Sum(DeviationOf(), items) == 0.0
  {
    SumsOverList(items, totals, total, targets);
    SumsAreLinear(items, total);
    WholeIsHundred(total);
  }

  lemma SumsOverList(items: seq<Item>, totals: Totals, total: real, targets: seq<Target>)
    requires total > 0.0 && SetKeepsSize(KeysOf(targets)) && OnePerKey(items, totals, ByKey(targets), total)
    ensures Sum(CurrentOf(), items) == SumMap(Values(totals))
    ensures Sum(TargetOf(), items) == SumPct(targets)
  {
    SetSize(KeysOf(targets));
    DistinctKeysSum(targets);
    OnePerKeyCovers(items, totals, ByKey(targets), total);
    SumIsSumMap(CurrentOf(), Values(totals), items);
    SumIsSumMap(TargetOf(), Pcts(ByKey(targets)), items);
  }

  lemma WholeIsHundred(total: real)
    requires total > 0.0
    ensures total / total * 100.0 - 100.0 == 0.0
    ensures ExactSuggestion(total, 100.0, total) == 0.0
  {
  }

  // ---------- Action labels ----------

  /** Percentage points below target. */
  function ShortBy(x: Item): real {
    x.targetPct - x.currentPct
  }

  /** What a label says: beyond the tolerance it is Increase exactly when the shortfall in points times
      the total exceeds 0.5, and an underweight asset is told to reduce exactly when it does not. */
  predicate Labelled(action: Action, currentPct: real, targetPct: real, short: real, total: real) {
    && (action == WithinTarget <==> -TOLERANCE_PCT <= currentPct - targetPct <= TOLERANCE_PCT)
    && (action == Increase <==> short > TOLERANCE_PCT && short * total > 0.5)
    && (action == Reduce && currentPct < targetPct <==> short > TOLERANCE_PCT && short * total <= 0.5)
  }

  /** Every item's label is decided exactly by its shortfall and the total. */
  lemma LabelMeaning(totals: Totals, targets: map<string, Target>, total: real, key: string)
    requires total > 0.0
    ensures var x := ItemFor(totals, targets, total, key);
            var short := x.targetPct - x.currentPct;
            && (x.action == WithinTarget <==> -1.0 <= short <= 1.0)
            && (x.action == Increase <==> short > 1.0 && short * total > 0.5)
            && (x.action == Reduce && short > 0.0 <==> short > 1.0 && short * total <= 0.5)
  {
    var x := ItemFor(totals, targets, total, key);
    LabelOf(total, x.targetPct, x.currentUsd, x.currentPct, ShortBy(x), x.deviationPct, x.suggestedUsd);
  }

  /** The same for bare numbers. */
  lemma LabelOf(total: real, targetPct: real, currentUsd: real, currentPct: real, short: real, deviationPct: real,
                suggestedUsd: real)
    requires total > 0.0
    requires currentPct == currentUsd / total * 100.0 && deviationPct == currentPct - targetPct
    requires short == targetPct - currentPct
    requires suggestedUsd == Cents(ExactSuggestion(total, targetPct, currentUsd))
    ensures Labelled(ActionFor(deviationPct, suggestedUsd), currentPct, targetPct, short, total)
  {
    CentsPositive(ExactSuggestion(total, targetPct, currentUsd));
    ShortfallInDollars(total, targetPct, currentUsd, short);
    ActionMeaning(deviationPct, short, suggestedUsd, total);
  }

  lemma ShareOfTotal(targetPct: real, held: real, total: real, short: real)
    requires short == targetPct - 100.0 * held
    ensures 100.0 * ExactSuggestion(total, targetPct, held * total) == short * total
  {
    assert targetPct == short + 100.0 * held;
    assert total * targetPct == short * total + 100.0 * (held * total);
  }

  lemma ActionMeaning(deviationPct: real, short: real, suggestedUsd: real, total: real)
    requires total > 0.0 && short == -deviationPct && (suggestedUsd > 0.0 <==> short * total > 0.5)
    ensures var action := ActionFor(deviationPct, suggestedUsd);
            && (action == Increase <==> short > TOLERANCE_PCT && short * total > 0.5)
            && (action == Reduce && short > 0.0 <==> short > TOLERANCE_PCT && short * total <= 0.5)
  {
    if short <= 0.0 {
      TimesPositive(short, total);
    }
  }

  lemma ShortfallInDollars(total: real, targetPct: real, currentUsd: real, short: real)
    requires total > 0.0 && short == targetPct - currentUsd / total * 100.0
    ensures ExactSuggestion(total, targetPct, currentUsd) > 0.005 <==> short * total > 0.5
  {
    var held := currentUsd / total;
    assert held * total == currentUsd;
    ShareOfTotal(targetPct, held, total, short);
  }

  lemma TimesPositive(short: real, total: real)
    requires short <= 0.0 && total > 0.0
    ensures short * total <= 0.0
  {
    var owed := -short;
    assert owed * total >= 0.0;
    assert short * total == -(owed * total);
  }

  /** From fifty cents up, the labels are right. */
  lemma LabelsAreRight(totals: Totals, targets: map<string, Target>, total: real, key: string)
    requires total >= 0.5
    ensures var x := ItemFor(totals, targets, total, key);
            x.action != WithinTarget ==> (x.action == Increase <==> x.currentPct < x.targetPct)
  {
    var x := ItemFor(totals, targets, total, key);
    LabelMeaning(totals, targets, total, key);
    if ShortBy(x) > 1.0 {
      MoreThanHalf(ShortBy(x), total);
    }
  }

  lemma MoreThanHalf(short: real, total: real)
    requires short > 1.0 && total >= 0.5
    ensures short * total > 0.5
  {
    var excess := short - 1.0;
    assert excess * total > 0.0;
    assert short * total == total + excess * total;
  }

  // Keys as the allocation builds them for a native asset on two chains.
  const MAINNET_ETH := "native:mainnet:ETH"
  const BASE_ETH := "native:base:ETH"

  /** Below fifty cents no total is safe: for each there are valid targets and holdings adding up to
      it whose list tells an underweight asset to reduce. */
  lemma LabelBoundIsSharp(total: real) returns (totals: Totals, targets: seq<Target>)
    requires 0.0 < total < 0.5
    ensures ValidDistribution(targets) && targets != []
    ensures SumMap(Values(totals)) == total && forall k :: k in totals ==> totals[k].1 >= 0.0
    ensures var x := ItemFor(totals, ByKey(targets), total, MAINNET_ETH);
            x.action == Reduce && x.currentPct < x.targetPct
  {
    var short := if total <= 0.01 then 50.0 else 0.5 / total;
    ShortfallFits(total, short);
    var low, high := Share(50.0 - short, total), Share(50.0 + short, total);
    SharesAddUp(short, total);
    totals := map[MAINNET_ETH := ("ETH", low), BASE_ETH := ("ETH", high)];
    targets := [Target(MAINNET_ETH, "ETH", 50.0), Target(BASE_ETH, "ETH", 50.0)];
    HalvesAreValid(targets);
    SumOfTwo(low, high);
    assert Values(totals) == map[MAINNET_ETH := low, BASE_ETH := high];
    HalvesByKey(targets);
    ToldToReduce(totals, ByKey(targets), total, short);
  }

  function Share(pct: real, total: real): real {
    pct * total / 100.0
  }

  lemma SharesAddUp(short: real, total: real)
    requires total > 0.0 && 0.0 < short <= 50.0
    ensures Share(50.0 - short, total) >= 0.0 && Share(50.0 + short, total) >= 0.0
    ensures Share(50.0 - short, total) + Share(50.0 + short, total) == total
  {
  }

  lemma SharePct(pct: real, total: real)
    requires total > 0.0
    ensures Share(pct, total) / total * 100.0 == pct
  {
  }

  lemma ToldToReduce(totals: Totals, targets: map<string, Target>, total: real, short: real)
    requires total > 0.0 && 1.0 < short && short * total <= 0.5
    requires MAINNET_ETH in totals && totals[MAINNET_ETH].1 == Share(50.0 - short, total)
    requires MAINNET_ETH in targets && targets[MAINNET_ETH].pct == 50.0
    ensures var x := ItemFor(totals, targets, total, MAINNET_ETH); x.action == Reduce && x.currentPct < x.targetPct
  {
    SharePct(50.0 - short, total);
    LabelMeaning(totals, targets, total, MAINNET_ETH);
  }

  lemma ShortfallFits(total: real, short: real)
    requires 0.0 < total < 0.5
    requires short == if total <= 0.01 then 50.0 else 0.5 / total
    ensures 1.0 < short <= 50.0 && short * total <= 0.5
  {
    if total > 0.01 {
      assert short * total == 0.5;
    }
  }

  lemma HalvesAreValid(targets: seq<Target>)
    requires targets == [Target(MAINNET_ETH, "ETH", 50.0), Target(BASE_ETH, "ETH", 50.0)]
    ensures ValidDistribution(targets)
  {
    EthItemsFit();
    assert KeysOf(targets) == [MAINNET_ETH, BASE_ETH];
    assert MAINNET_ETH[7] != BASE_ETH[7];
    SetSize(KeysOf(targets));
    assert SumPct(targets[..1]) == 50.0 by {
      assert targets[..1][..0] == [];
    }
  }

  lemma EthItemsFit()
    ensures ItemSchema(Target(MAINNET_ETH, "ETH", 50.0)) && ItemSchema(Target(BASE_ETH, "ETH", 50.0))
  {
    assert (100.0 * 50.0 as real).Floor == 5000;
  }

  lemma HalvesByKey(targets: seq<Target>)
    requires targets == [Target(MAINNET_ETH, "ETH", 50.0), Target(BASE_ETH, "ETH", 50.0)]
    ensures MAINNET_ETH in ByKey(targets) && ByKey(targets)[MAINNET_ETH].pct == 50.0
  {
    assert targets[..1][..0] == [] && targets[..1][0] == targets[0];
    assert ByKey(targets[..1]) == map[MAINNET_ETH := targets[0]];
  }

  lemma SumOfTwo(low: real, high: real)
    ensures SumMap(map[MAINNET_ETH := low, BASE_ETH := high]) == low + high
  {
    var m := map[MAINNET_ETH := low, BASE_ETH := high];
    SumMapRemove(m, MAINNET_ETH);
    SumMapRemove(m - {MAINNET_ETH}, BASE_ETH);
    assert m - {MAINNET_ETH} - {BASE_ETH} == map[];
  }
}
