/** The live-assets cache: an ordered dictionary used as a bounded recency list with expiry. */
module AssetsCache {
  import opened Collections

  const TTL_SECONDS := 30.0
  const MAX_ENTRIES := 256

  type Payload = string

  datatype Entry = Entry(key: string, at: real, payload: Payload)

  // ---------- The ordered dictionary, oldest entry first ----------

  function OtherThan(key: string): Entry -> bool {
    (e: Entry) => e.key != key
  }

  function Without(es: seq<Entry>, key: string): seq<Entry> {
    Filter(OtherThan(key), es)
  }

  function EntryOf(es: seq<Entry>, key: string): (e: Option<Entry>)
    ensures e.Some? ==> e.value in es && e.value.key == key
    ensures e.None? <==> forall x :: x in es ==> x.key != key
  {
    if es == [] then None else if es[0].key == key then Some(es[0]) else EntryOf(es[1..], key)
  }

  predicate Fresh(e: Entry, now: real) {
    now - e.at < TTL_SECONDS
  }

  // ---------- What one call does ----------

  function Got(es: seq<Entry>, key: string, now: real): seq<Entry> {
    var e := EntryOf(es, key);
    Without(es, key) + if e.Some? && Fresh(e.value, now) then [e.value] else []
  }

  function Hit(es: seq<Entry>, key: string, now: real): Option<Payload> {
    var e := EntryOf(es, key);
    if e.Some? && Fresh(e.value, now) then Some(e.value.payload) else None
  }

  function Newest(es: seq<Entry>): seq<Entry> {
    if |es| > MAX_ENTRIES then es[|es| - MAX_ENTRIES..] else es
  }

  function Put(es: seq<Entry>, key: string, now: real, payload: Payload): seq<Entry> {
    Newest(Without(es, key) + [Entry(key, now, payload)])
  }

  datatype Call = Save(key: string, at: real, payload: Payload) | Lookup(key: string, now: real) | Clear

  function Apply(es: seq<Entry>, c: Call): seq<Entry> {
    match c
    case Save(key, at, payload) => Put(es, key, at, payload)
    case Lookup(key, now) => Got(es, key, now)
    case Clear => []
  }

  function Replay(trace: seq<Call>): seq<Entry> {
    if trace == [] then [] else Apply(Replay(trace[..|trace| - 1]), trace[|trace| - 1])
  }

  lemma ReplaySnoc(trace: seq<Call>, c: Call)
    ensures Replay(trace + [c]) == Apply(Replay(trace), c)
  {
    assert (trace + [c])[..|trace|] == trace;
  }

  /** `_assets_cache`; the lock makes each call one step. */
  class Cache {
    var entries: seq<Entry>
    ghost var trace: seq<Call>

    ghost predicate Valid()
      reads this
    {
      entries == Replay(trace)
    }

    constructor ()
      ensures Valid() && trace == []
    {
      entries, trace := [], [];
    }

    method GetCachedAssets(cacheKey: string, now: real) returns (hit: Option<Payload>)
      requires Valid()
      modifies this
      ensures Valid() && trace == old(trace) + [Lookup(cacheKey, now)]
      ensures hit == Hit(old(entries), cacheKey, now)
      ensures entries == Got(old(entries), cacheKey, now)
    {
      ReplaySnoc(trace, Lookup(cacheKey, now));
      trace := trace + [Lookup(cacheKey, now)];
      var entry := EntryOf(entries, cacheKey);
      entries := Without(entries, cacheKey);
      assert entries + [] == entries;
      if entry.None? { return None; }
      if now - entry.value.at >= TTL_SECONDS { return None; }
      entries := entries + [entry.value];
      return Some(entry.value.payload);
    }

    method CacheAssets(cacheKey: string, payload: Payload, now: real)
      requires Valid()
      modifies this
      ensures Valid() && trace == old(trace) + [Save(cacheKey, now, payload)]
      ensures entries == Put(old(entries), cacheKey, now, payload) && |entries| <= MAX_ENTRIES
    {
      ReplaySnoc(trace, Save(cacheKey, now, payload));
      trace := trace + [Save(cacheKey, now, payload)];
      entries := Without(entries, cacheKey) + [Entry(cacheKey, now, payload)];
      ghost var all := entries;
      while |entries| > MAX_ENTRIES
        invariant trace == old(trace) + [Save(cacheKey, now, payload)]
        invariant |entries| <= |all| && entries == all[|all| - |entries|..]
        invariant |entries| >= MAX_ENTRIES || entries == all
      {
        entries := entries[1..];
      }
    }

    method ClearAssetsCache()
      modifies this
      ensures Valid() && entries == [] && trace == old(trace) + [Clear]
    {
      trace := trace + [Clear];
      entries := [];
    }
  }

  // ---------- What the calls mean ----------

  /** Nothing after `i` stores the key again or clears the cache. */
  ghost predicate StoredAt(trace: seq<Call>, i: int, e: Entry) {
    && 0 <= i < |trace| && trace[i] == Save(e.key, e.at, e.payload)
    && forall j :: i < j < |trace| ==> trace[j] != Clear && !(trace[j].Save? && trace[j].key == e.key)
  }

  function LastAfter(before: Option<Entry>, c: Call, key: string): Option<Entry> {
    match c
    case Save(k, at, payload) => if k == key then Some(Entry(k, at, payload)) else before
    case Lookup(k, now) => if k == key && before.Some? && !Fresh(before.value, now) then None else before
    case Clear => None
  }

  /** The last payload stored for a key, unless it was cleared or looked up after it had expired. */
  ghost function LastStored(trace: seq<Call>, key: string): Option<Entry> {
    if trace == [] then None
    else LastAfter(LastStored(trace[..|trace| - 1], key), trace[|trace| - 1], key)
  }

  lemma {:induction false} LastStoredWasStored(trace: seq<Call>, key: string) returns (i: int)
    ensures LastStored(trace, key).Some? ==>
              LastStored(trace, key).value.key == key && StoredAt(trace, i, LastStored(trace, key).value)
  {
    i := |trace| - 1;
    if trace != [] && LastStored(trace, key).Some? && !(trace[i].Save? && trace[i].key == key) {
      i := LastStoredWasStored(trace[..|trace| - 1], key);
    }
  }

  /** Keys are touched by a store or by a lookup that hits. */
  predicate Touches(es: seq<Entry>, c: Call) {
    c.Save? || (c.Lookup? && Hit(es, c.key, c.now).Some?)
  }

  function TouchedAfter(es: seq<Entry>, touched: set<string>, c: Call, key: string): set<string> {
    if c.Clear? then {}
    else if !Touches(es, c) then touched
    else if c.key == key then {}
    else touched + {c.key}
  }

  /** The other keys touched since this key's own last touch. */
  ghost function TouchedSince(trace: seq<Call>, key: string): set<string> {
    if trace == [] then {}
    else
      var before := trace[..|trace| - 1];
      TouchedAfter(Replay(before), TouchedSince(before, key), trace[|trace| - 1], key)
  }

  // ---------- Sequences of entries with distinct keys ----------

  ghost function KeysOf(es: seq<Entry>): set<string> {
    set e | e in es :: e.key
  }

  ghost predicate DistinctKeys(es: seq<Entry>) {
    forall i, j :: 0 <= i < j < |es| ==> es[i].key != es[j].key
  }

  lemma {:induction false} KeysCount(es: seq<Entry>)
    requires DistinctKeys(es)
    ensures |KeysOf(es)| == |es|
  {
    if es != [] {
      var front, last := es[..|es| - 1], es[|es| - 1];
      KeysCount(front);
      assert es == front + [last];
      assert KeysOf(es) == KeysOf(front) + {last.key};
    }
  }

  lemma {:induction false} WithoutShrinks(es: seq<Entry>, key: string)
    ensures |Without(es, key)| <= |es|
    ensures (exists e :: e in es && e.key == key) ==> |Without(es, key)| < |es|
    ensures DistinctKeys(es) ==> DistinctKeys(Without(es, key))
    ensures KeysOf(Without(es, key)) <= KeysOf(es) - {key}
  {
    if es != [] {
      WithoutShrinks(es[1..], key);
      assert es == [es[0]] + es[1..];
      if DistinctKeys(es) {
        assert DistinctKeys(es[1..]);
        forall e | e in Without(es[1..], key) ensures e.key != es[0].key {
          assert e in es[1..];
        }
      }
    }
  }

  // ---------- Recency ----------

  /** The entry is present, and every key behind it is among `touched`. */
  ghost predicate Behind(es: seq<Entry>, e: Entry, touched: set<string>) {
    exists a, b :: Splits(es, a, e, b, touched)
  }

  ghost predicate Splits(es: seq<Entry>, a: seq<Entry>, e: Entry, b: seq<Entry>, touched: set<string>) {
    es == a + [e] + b && KeysOf(b) <= touched
  }

  ghost predicate Tracked(es: seq<Entry>, last: Option<Entry>, touched: set<string>, key: string) {
    match last
    case None => key !in KeysOf(es)
    case Some(e) => e.key == key && (Behind(es, e, touched) || (key !in KeysOf(es) && |touched| >= MAX_ENTRIES))
  }

  /** Removing another key keeps the entry's place. */
  lemma WithoutKeepsBehind(es: seq<Entry>, e: Entry, touched: set<string>, other: string)
    requires Behind(es, e, touched) && other != e.key
    ensures Behind(Without(es, other), e, touched)
  {
    var a, b :| Splits(es, a, e, b, touched);
    FilterConcat(OtherThan(other), a + [e], b);
    FilterConcat(OtherThan(other), a, [e]);
    WithoutShrinks(b, other);
    assert [e][1..] == [] && Without([], other) == [];
    assert Without([e], other) == [e];
    assert Splits(Without(es, other), Without(a, other), e, Without(b, other), touched);
  }

  lemma AppendKeepsBehind(es: seq<Entry>, e: Entry, touched: set<string>, x: Entry)
    requires Behind(es, e, touched)
    ensures Behind(es + [x], e, touched + {x.key})
  {
    var a, b :| Splits(es, a, e, b, touched);
    assert es + [x] == a + [e] + (b + [x]);
    assert Splits(es + [x], a, e, b + [x], touched + {x.key});
  }

  /** Dropping the oldest of 257 entries loses a key only when 256 others are behind it. */
  lemma EvictKeepsTracked(es: seq<Entry>, e: Entry, touched: set<string>)
    requires DistinctKeys(es) && |es| == MAX_ENTRIES + 1 && Behind(es, e, touched)
    ensures Tracked(es[1..], Some(e), touched, e.key)
  {
    var a, b :| Splits(es, a, e, b, touched);
    if a == [] {
      OldestDropped(es, e, b, touched);
    } else {
      assert es[1..] == a[1..] + [e] + b;
      assert Splits(es[1..], a[1..], e, b, touched);
    }
  }

  lemma OldestDropped(es: seq<Entry>, e: Entry, b: seq<Entry>, touched: set<string>)
    requires DistinctKeys(es) && |es| == MAX_ENTRIES + 1
    requires es == [e] + b && KeysOf(b) <= touched
    ensures es[1..] == b && e.key !in KeysOf(b) && |touched| >= MAX_ENTRIES
  {
    assert forall i :: 0 <= i < |b| ==> b[i] == es[i + 1];
    assert e == es[0];
    KeysCount(b);
    SubsetSize(KeysOf(b), touched);
  }

  lemma {:induction false} SubsetSize<T>(a: set<T>, b: set<T>)
    requires a <= b
    ensures |a| <= |b|
  {
    assert b == a + (b - a);
  }

  lemma BehindIsEntryOf(es: seq<Entry>, e: Entry, touched: set<string>)
    requires DistinctKeys(es) && Behind(es, e, touched)
    ensures EntryOf(es, e.key) == Some(e)
  {
    var a, b :| Splits(es, a, e, b, touched);
    assert es[|a|] == e;
    var found := EntryOf(es, e.key);
    assert found.Some?;
    var i :| 0 <= i < |es| && es[i] == found.value;
  }

  // ---------- Theorems about every trace ----------

  lemma {:induction false} SizeAndDistinct(trace: seq<Call>)
    ensures |Replay(trace)| <= 256 && DistinctKeys(Replay(trace))
  {
    if trace != [] {
      var before, c := trace[..|trace| - 1], trace[|trace| - 1];
      SizeAndDistinct(before);
      var es := Replay(before);
      if !c.Clear? {
        WithoutShrinks(es, c.key);
        var rest := Without(es, c.key);
        assert forall e :: e in rest ==> e.key != c.key;
      }
    }
  }

  lemma OwnTouch(rest: seq<Entry>, e: Entry)
    ensures Behind(rest + [e], e, {})
  {
    assert rest + [e] == rest + [e] + [];
    assert Splits(rest + [e], rest, e, [], {});
  }

  lemma AbsentAfter(es: seq<Entry>, key: string, other: string)
    requires key !in KeysOf(es)
    ensures key !in KeysOf(Without(es, other)) && EntryOf(es, key) == None
  {
    WithoutShrinks(es, other);
    assert forall x :: x in es ==> x.key in KeysOf(es);
  }

  lemma StoreTracks(es: seq<Entry>, last: Option<Entry>, touched: set<string>, key: string, c: Call)
    requires DistinctKeys(es) && |es| <= MAX_ENTRIES && c.Save? && c.key != key
    requires Tracked(es, last, touched, key)
    ensures Tracked(Apply(es, c), last, touched + {c.key}, key)
  {
    var x := Entry(c.key, c.at, c.payload);
    var rest := Without(es, c.key);
    WithoutShrinks(es, c.key);
    assert DistinctKeys(rest + [x]);
    if key !in KeysOf(es) {
      SubsetSize(touched, touched + {c.key});
      assert forall e :: e in Apply(es, c) ==> e in rest || e == x;
    } else {
      var e := last.value;
      WithoutKeepsBehind(es, e, touched, c.key);
      AppendKeepsBehind(rest, e, touched, x);
      if |rest + [x]| > MAX_ENTRIES {
        EvictKeepsTracked(rest + [x], e, touched + {c.key});
      }
    }
  }

  lemma LookupTracks(es: seq<Entry>, last: Option<Entry>, touched: set<string>, key: string, c: Call)
    requires c.Lookup? && c.key != key
    requires Tracked(es, last, touched, key)
    ensures Tracked(Apply(es, c), last, TouchedAfter(es, touched, c, key), key)
  {
    var rest := Without(es, c.key);
    var x := EntryOf(es, c.key);
    assert rest + [] == rest;
    if key !in KeysOf(es) {
      AbsentAfter(es, key, c.key);
      SubsetSize(touched, touched + {c.key});
      assert forall e :: e in Apply(es, c) ==> e in rest || Some(e) == x;
    } else {
      WithoutKeepsBehind(es, last.value, touched, c.key);
      if x.Some? {
        AppendKeepsBehind(rest, last.value, touched, x.value);
      }
    }
  }

  lemma OwnLookupTracks(es: seq<Entry>, last: Option<Entry>, touched: set<string>, key: string, now: real)
    requires DistinctKeys(es) && Tracked(es, last, touched, key)
    ensures Tracked(Got(es, key, now),
                    if last.Some? && !Fresh(last.value, now) then None else last,
                    if Hit(es, key, now).Some? then {} else touched, key)
  {
    var rest := Without(es, key);
    assert rest + [] == rest;
    WithoutShrinks(es, key);
    if key !in KeysOf(es) {
      AbsentAfter(es, key, key);
    } else {
      BehindIsEntryOf(es, last.value, touched);
      OwnTouch(rest, last.value);
    }
  }

  lemma OwnStoreTracks(es: seq<Entry>, key: string, at: real, payload: Payload)
    ensures Tracked(Put(es, key, at, payload), Some(Entry(key, at, payload)), {}, key)
  {
    var x := Entry(key, at, payload);
    var after := Put(es, key, at, payload);
    assert after == after[..|after| - 1] + [x];
    OwnTouch(after[..|after| - 1], x);
  }

  lemma StepTracks(es: seq<Entry>, last: Option<Entry>, touched: set<string>, key: string, c: Call)
    requires DistinctKeys(es) && |es| <= MAX_ENTRIES && Tracked(es, last, touched, key)
    ensures Tracked(Apply(es, c), LastAfter(last, c, key), TouchedAfter(es, touched, c, key), key)
  {
    match c
    case Save(k, at, payload) =>
      if k == key { OwnStoreTracks(es, key, at, payload); } else { StoreTracks(es, last, touched, key, c); }
    case Lookup(k, now) =>
      if k == key { OwnLookupTracks(es, last, touched, key, now); } else { LookupTracks(es, last, touched, key, c); }
    case Clear =>
  }

  lemma {:induction false} TraceTracked(trace: seq<Call>, key: string)
    ensures Tracked(Replay(trace), LastStored(trace, key), TouchedSince(trace, key), key)
  {
    if trace != [] {
      var before := trace[..|trace| - 1];
      TraceTracked(before, key);
      SizeAndDistinct(before);
      StepTracks(Replay(before), LastStored(before, key), TouchedSince(before, key), key, trace[|trace| - 1]);
    }
  }

  /** A hit returns the payload last stored under the key, less than 30 seconds old. */
  lemma {:induction false} HitIsLastStore(trace: seq<Call>, key: string, now: real)
    requires Hit(Replay(trace), key, now).Some?
    ensures var last := LastStored(trace, key);
            && last.Some? && last.value.payload == Hit(Replay(trace), key, now).value
            && now - last.value.at < 30.0
            && exists i :: StoredAt(trace, i, last.value)
  {
    TraceTracked(trace, key);
    SizeAndDistinct(trace);
    var i := LastStoredWasStored(trace, key);
    var found := EntryOf(Replay(trace), key).value;
    assert found.key in KeysOf(Replay(trace));
    BehindIsEntryOf(Replay(trace), LastStored(trace, key).value, TouchedSince(trace, key));
  }

  /** Lookups of the key after the store sampled the clock no later than `now`. */
  ghost predicate SampledBy(trace: seq<Call>, i: int, key: string, now: real) {
    forall j :: 0 <= i < j < |trace| && trace[j].Lookup? && trace[j].key == key ==> trace[j].now <= now
  }

  /** A payload that is still fresh was fresh at every earlier lookup, so none of them dropped it. */
  lemma {:induction false} FreshStoreIsLast(trace: seq<Call>, i: int, e: Entry, now: real)
    requires StoredAt(trace, i, e) && Fresh(e, now) && SampledBy(trace, i, e.key, now)
    ensures LastStored(trace, e.key) == Some(e)
  {
    var n := |trace| - 1;
    if i < n {
      var before := trace[..n];
      assert before[i] == trace[i];
      assert forall j :: 0 <= j < n ==> before[j] == trace[j];
      FreshStoreIsLast(before, i, e, now);
      assert trace[n].Lookup? && trace[n].key == e.key ==> trace[n].now <= now;
    }
  }

  /** With clock samples in order, a payload stored less than 30 seconds ago, not overwritten and not cleared,
      is missed only after 256 distinct other keys were touched since its key's own last touch. */
  lemma {:induction false} UnexpiredMissNeedsCrowd(trace: seq<Call>, i: int, e: Entry, now: real)
    requires StoredAt(trace, i, e) && now - e.at < 30.0 && SampledBy(trace, i, e.key, now)
    requires Hit(Replay(trace), e.key, now).None?
    ensures |TouchedSince(trace, e.key)| >= 256 && e.key !in TouchedSince(trace, e.key)
  {
    FreshStoreIsLast(trace, i, e, now);
    LastStoredMissed(trace, e.key, now);
  }

  lemma {:induction false} LastStoredMissed(trace: seq<Call>, key: string, now: real)
    requires LastStored(trace, key).Some? && Fresh(LastStored(trace, key).value, now)
    requires Hit(Replay(trace), key, now).None?
    ensures |TouchedSince(trace, key)| >= MAX_ENTRIES && key !in TouchedSince(trace, key)
  {
    TraceTracked(trace, key);
    SizeAndDistinct(trace);
    OthersOnly(trace, key);
    var e := LastStored(trace, key).value;
    if Behind(Replay(trace), e, TouchedSince(trace, key)) {
      BehindIsEntryOf(Replay(trace), e, TouchedSince(trace, key));
    }
  }

  lemma {:induction false} OthersOnly(trace: seq<Call>, key: string)
    ensures key !in TouchedSince(trace, key)
  {
    if trace != [] {
      OthersOnly(trace[..|trace| - 1], key);
    }
  }
}
