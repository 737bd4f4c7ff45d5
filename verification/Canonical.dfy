/** Three ways to count a duplicated EVM address once: the history's loop, the balance query and the migration. */
module Canonical {
  import opened Collections
  import opened Text
  import opened Wallets

  function Less(): (int, int) -> bool {
    (i: int, j: int) => i < j
  }

  /** One owner's active wallets, ORDER BY id. */
  ghost predicate Listing(t: Table, userId: int, wallets: seq<int>) {
    && Chain(Less(), wallets)
    && forall id :: id in wallets <==> id in t && t[id].userId == userId && t[id].active
  }

  /** The key the history's loop remembers; wallets without one are always kept. */
  function LoopKey(w: Wallet): Option<string> {
    if w.kind.Evm? && w.address.Some? && w.address.value != [] then Some(Lower(Strip(w.address.value))) else None
  }

  predicate SameLoopKey(t: Table, i: int, j: int) {
    i in t && j in t && LoopKey(t[i]).Some? && LoopKey(t[i]) == LoopKey(t[j])
  }

  predicate Repeats(t: Table, wallets: seq<int>, id: int) {
    exists i :: i in wallets && i < id && SameLoopKey(t, i, id)
  }

  function NotRepeated(t: Table, wallets: seq<int>): int -> bool {
    (id: int) => !Repeats(t, wallets, id)
  }

  /** Two EVM wallets whose non-empty addresses are the same once blanks are stripped and letter case is ignored. */
  predicate SameText(v: Wallet, w: Wallet) {
    && v.kind == Evm && w.kind == Evm && v.address.Some? && w.address.Some?
    && v.address.value != [] && w.address.value != []
    && Lower(Strip(v.address.value)) == Lower(Strip(w.address.value))
  }

  lemma LoopMeaning(t: Table, wallets: seq<int>)
    requires forall id :: id in wallets ==> id in t
    ensures forall id :: id in wallets ==>
              (NotRepeated(t, wallets)(id)
               <==> !(t[id].kind == Evm && exists i :: i in wallets && i < id && SameText(t[i], t[id])))
  {
    forall i, id | i in t && id in t ensures SameLoopKey(t, i, id) <==> SameText(t[i], t[id]) {
    }
  }

  /** The loop in `_portfolio_history`: of wallets sharing a key, only the lowest id stays, and order is kept. */
  method CanonicalWallets(t: Table, wallets: seq<int>) returns (canonical: seq<int>)
    requires Chain(Less(), wallets) && forall id :: id in wallets ==> id in t
    ensures canonical == Filter(NotRepeated(t, wallets), wallets)
    ensures forall id :: id in canonical <==>
              id in wallets && !(t[id].kind == Evm && exists i :: i in wallets && i < id && SameText(t[i], t[id]))
  {
    LoopMeaning(t, wallets);
    canonical := [];
    var seen: set<string> := {};
    for n := 0 to |wallets|
      invariant canonical == Filter(NotRepeated(t, wallets), wallets[..n])
      invariant forall key :: key in seen <==> KeySeen(t, wallets[..n], key)
    {
      assert wallets[..n + 1] == wallets[..n] + [wallets[n]];
      FilterSnoc(NotRepeated(t, wallets), wallets[..n], wallets[n]);
      KeySeenSnoc(t, wallets, n);
      RepeatsMeansSeen(t, wallets, n);
      var key := LoopKey(t[wallets[n]]);
      if key.None? {
        canonical := canonical + [wallets[n]];
        continue;
      }
      if key.value in seen { continue; }
      seen := seen + {key.value};
      canonical := canonical + [wallets[n]];
    }
    assert wallets[..|wallets|] == wallets;
  }

  ghost predicate KeySeen(t: Table, wallets: seq<int>, key: string) {
    exists i :: i in wallets && i in t && LoopKey(t[i]) == Some(key)
  }

  lemma KeySeenSnoc(t: Table, wallets: seq<int>, n: int)
    requires 0 <= n < |wallets| && wallets[n] in t
    ensures forall key :: KeySeen(t, wallets[..n + 1], key) <==>
                            KeySeen(t, wallets[..n], key) || LoopKey(t[wallets[n]]) == Some(key)
  {
    var before, more := wallets[..n], wallets[..n + 1];
    assert more == before + [wallets[n]];
    assert more[n] == wallets[n];
    forall key ensures KeySeen(t, more, key) <==> KeySeen(t, before, key) || LoopKey(t[wallets[n]]) == Some(key) {
      if KeySeen(t, more, key) {
        var i :| i in more && i in t && LoopKey(t[i]) == Some(key);
        assert i in before || i == wallets[n];
      }
      if KeySeen(t, before, key) {
        var i :| i in before && i in t && LoopKey(t[i]) == Some(key);
        assert i in more;
      }
    }
  }

  lemma RepeatsMeansSeen(t: Table, wallets: seq<int>, n: int)
    requires Chain(Less(), wallets) && 0 <= n < |wallets| && wallets[n] in t
    ensures var key := LoopKey(t[wallets[n]]);
            Repeats(t, wallets, wallets[n]) <==> key.Some? && KeySeen(t, wallets[..n], key.value)
  {
    forall i | i in wallets ensures i < wallets[n] <==> i in wallets[..n] {
      var j :| 0 <= j < |wallets| && wallets[j] == i;
      if j < n { assert wallets[..n][j] == i && Less()(wallets[j], wallets[n]); }
      if j > n { assert Less()(wallets[n], wallets[j]); }
      if i in wallets[..n] {
        var k :| 0 <= k < n && wallets[k] == i;
        assert Less()(wallets[k], wallets[n]);
      }
    }
    var id, key := wallets[n], LoopKey(t[wallets[n]]);
    if Repeats(t, wallets, id) {
      var i :| i in wallets && i < id && SameLoopKey(t, i, id);
      assert i in wallets[..n];
    }
    if key.Some? && KeySeen(t, wallets[..n], key.value) {
      var i :| i in wallets[..n] && i in t && LoopKey(t[i]) == key;
      assert i in wallets && SameLoopKey(t, i, id);
    }
  }

  // ---------- The balance query ----------

  predicate CountedByIndex(w: Wallet, userId: int) {
    w.userId == userId && w.kind.Evm? && w.active && w.address.Some?
  }

  /** `min(id)` of the id's own group, by lower(trim(address)). */
  predicate GroupMinimum(t: Table, userId: int, id: int) {
    && id in t && CountedByIndex(t[id], userId)
    && forall i :: i in t && CountedByIndex(t[i], userId) && SameSqlKey(t[i], t[id]) ==> id <= i
  }

  predicate SameSqlKey(v: Wallet, w: Wallet)
    requires v.address.Some? && w.address.Some?
  {
    Lower(SqlTrim(v.address.value)) == Lower(SqlTrim(w.address.value))
  }

  /** The WHERE clause of `active_canonical_wallets`. */
  function Selected(t: Table, userId: int): int -> bool {
    (id: int) => id in t && (!t[id].kind.Evm? || GroupMinimum(t, userId, id))
  }

  lemma SqlKeysMeanLoopKeys(x: string, y: string)
    ensures Lower(SqlTrim(x)) == Lower(SqlTrim(y)) ==> Lower(Strip(x)) == Lower(Strip(y))
  {
    StripSqlTrim(x);
    StripSqlTrim(y);
    StripLower(SqlTrim(x));
    StripLower(SqlTrim(y));
  }

  /** What the index sees as a repeat the loop sees too. */
  lemma OlderMeansRepeats(t: Table, userId: int, wallets: seq<int>, id: int)
    requires Listing(t, userId, wallets) && RulesHold(t) && id in wallets && t[id].kind.Evm?
    ensures HasOlder(t, id) ==> Repeats(t, wallets, id)
  {
    if HasOlder(t, id) {
      var i :| i in t && i < id && Conflict(t[i], t[id]);
      SqlKeysMeanLoopKeys(t[i].address.value, t[id].address.value);
      assert Strip([]) == [];
      assert i in wallets && SameLoopKey(t, i, id);
    }
  }

  lemma QueryDropsOlder(t: Table, userId: int, id: int)
    requires RulesHold(t) && id in t && t[id].kind.Evm? && t[id].active && t[id].userId == userId
    ensures Selected(t, userId)(id) <==> !HasOlder(t, id)
  {
    forall i ensures i in t && CountedByIndex(t[i], userId) && SameSqlKey(t[i], t[id]) <==>
                       i in t && (i == id || Conflict(t[i], t[id])) {
    }
  }

  /** For any stored addresses, the query's EVM wallets are exactly the rows the migration would leave active. */
  lemma {:induction false} QueryMatchesMigration(t: Table, userId: int, wallets: seq<int>)
    requires Listing(t, userId, wallets) && RulesHold(t)
    ensures forall id :: id in wallets && t[id].kind.Evm? ==>
              (id in Filter(Selected(t, userId), wallets) <==> KeepOldest(t)[id].active)
  {
    forall id | id in wallets && t[id].kind.Evm?
      ensures id in Filter(Selected(t, userId), wallets) <==> KeepOldest(t)[id].active
    {
      QueryDropsOlder(t, userId, id);
    }
  }

  /** For any stored addresses, the loop and the query list the same wallets exactly when every repeat the loop
      sees, after stripping all blanks, is one the index sees, after trimming spaces. */
  lemma {:induction false} LoopMatchesQueryIff(t: Table, userId: int, wallets: seq<int>)
    requires Listing(t, userId, wallets) && RulesHold(t)
    ensures Filter(NotRepeated(t, wallets), wallets) == Filter(Selected(t, userId), wallets)
            <==> forall id :: id in wallets && Repeats(t, wallets, id) ==> HasOlder(t, id)
  {
    var looped, queried := Filter(NotRepeated(t, wallets), wallets), Filter(Selected(t, userId), wallets);
    forall id | id in wallets
      ensures NotRepeated(t, wallets)(id) ==> Selected(t, userId)(id)
      ensures Repeats(t, wallets, id) ==> (HasOlder(t, id) <==> !Selected(t, userId)(id))
    {
      if t[id].kind.Evm? {
        OlderMeansRepeats(t, userId, wallets, id);
        QueryDropsOlder(t, userId, id);
      }
    }
    if forall id :: id in wallets && Repeats(t, wallets, id) ==> HasOlder(t, id) {
      FilterAgree(NotRepeated(t, wallets), Selected(t, userId), wallets);
    }
    forall id | id in wallets && looped == queried ensures Repeats(t, wallets, id) ==> HasOlder(t, id) {
      assert id in looped <==> id in queried;
    }
  }

  /** Nothing but spaces around any EVM address. */
  ghost predicate SpacesOnly(t: Table) {
    forall id :: id in t && t[id].kind.Evm? ==> Plain(t[id].address)
  }

  lemma RepeatsMeansOlder(t: Table, userId: int, wallets: seq<int>, id: int)
    requires Listing(t, userId, wallets) && SpacesOnly(t) && id in wallets
    ensures Repeats(t, wallets, id) ==> HasOlder(t, id)
  {
    if Repeats(t, wallets, id) {
      var i :| i in wallets && i < id && SameLoopKey(t, i, id);
      assert Conflict(t[i], t[id]);
    }
  }

  /** In every state the handlers can reach, the loop, the query and the migration choose the same EVM wallets. */
  lemma {:induction false} ReachableAgree(states: seq<State>, steps: seq<Step>, n: nat, userId: int, wallets: seq<int>)
    requires Run(states, steps) && Inv(states[0]) && RowsTrim(states[0].table) && n < |states|
    requires Listing(states[n].table, userId, wallets)
    ensures var t := states[n].table;
            Filter(NotRepeated(t, wallets), wallets) == Filter(Selected(t, userId), wallets) == wallets
  {
    var t := states[n].table;
    EveryRunKeepsInv(states, steps);
    assert forall id :: id in t ==> TrimsToAddress(t[id].kind, t[id].address);
    forall id | id in wallets ensures !Repeats(t, wallets, id) {
      RepeatsMeansOlder(t, userId, wallets, id);
    }
    LoopMatchesQueryIff(t, userId, wallets);
    FilterAll(NotRepeated(t, wallets), wallets);
  }

  // ---------- Groups ----------

  /** A group's history filters the owner's active wallets by group and then runs the loop. */
  function HistoryOf(t: Table, wallets: seq<int>, member: int -> bool): seq<int> {
    Filter(NotRepeated(t, Filter(member, wallets)), Filter(member, wallets))
  }

  /** Its balance views take the rows the min-id query selects and filter them by group. */
  function BalancesOf(t: Table, userId: int, wallets: seq<int>, member: int -> bool): seq<int> {
    Filter(member, Filter(Selected(t, userId), wallets))
  }

  /** A group's history and its balance views list the same wallets exactly when an EVM member repeats an
      earlier member just in case it repeats an earlier active row at all. */
  lemma {:induction false} GroupViewsAgreeIff(t: Table, userId: int, wallets: seq<int>, member: int -> bool)
    requires Listing(t, userId, wallets) && RulesHold(t)
    ensures var group := Filter(member, wallets);
            HistoryOf(t, wallets, member) == BalancesOf(t, userId, wallets, member)
            <==> forall id :: id in group && t[id].kind.Evm? ==> (Repeats(t, group, id) <==> HasOlder(t, id))
  {
    var group := Filter(member, wallets);
    FilterCommutes(member, Selected(t, userId), wallets);
    forall id | id in group
      ensures t[id].kind.Evm? ==> (Selected(t, userId)(id) <==> !HasOlder(t, id))
      ensures !t[id].kind.Evm? ==> Selected(t, userId)(id) && NotRepeated(t, group)(id)
    {
      if t[id].kind.Evm? {
        QueryDropsOlder(t, userId, id);
      }
    }
    if forall id :: id in group && t[id].kind.Evm? ==> (Repeats(t, group, id) <==> HasOlder(t, id)) {
      FilterAgree(NotRepeated(t, group), Selected(t, userId), group);
    }
    forall id | id in group && t[id].kind.Evm?
                && HistoryOf(t, wallets, member) == BalancesOf(t, userId, wallets, member)
      ensures Repeats(t, group, id) <==> HasOlder(t, id)
    {
      assert id in Filter(NotRepeated(t, group), group) <==> id in Filter(Selected(t, userId), group);
    }
  }

  /** Once the unique indexes hold the loop drops nothing, and nor does the query where every EVM wallet has an
      address, whatever the group; a group of everyone is the whole account. */
  lemma {:induction false} UniqueNeedsNoDropping(t: Table, userId: int, wallets: seq<int>, member: int -> bool)
    requires Listing(t, userId, wallets) && SpacesOnly(t) && Unique(t)
    ensures HistoryOf(t, wallets, member) == Filter(member, wallets)
    ensures RulesHold(t) ==> BalancesOf(t, userId, wallets, member) == Filter(member, wallets)
  {
    var group := Filter(member, wallets);
    forall id | id in wallets ensures !Repeats(t, group, id) && !HasOlder(t, id) {
      RepeatsMeansOlder(t, userId, wallets, id);
    }
    FilterAll(NotRepeated(t, group), group);
    if RulesHold(t) {
      GroupViewsAgreeIff(t, userId, wallets, member);
    }
  }

  /** Two active rows of one owner hold `address`; both are clean, and only an index could forbid them. */
  function TwoRows(address: string): Table {
    map[1 := Wallet(7, Evm, "all", Some(address), true, 0), 2 := Wallet(7, Evm, "all", Some(address), true, 0)]
  }

  /** Without the index the two do differ: for the group without the older row, the history counts the younger
      one, while the balance views leave it out. */
  lemma {:induction false} GroupViewsDiffer(address: string) returns (wallets: seq<int>, member: int -> bool)
    requires TrimsToAddress(Evm, Some(address))
    ensures RulesHold(TwoRows(address)) && RowsTrim(TwoRows(address)) && !Unique(TwoRows(address))
    ensures Listing(TwoRows(address), 7, wallets)
    ensures HistoryOf(TwoRows(address), wallets, member) == [2]
    ensures BalancesOf(TwoRows(address), 7, wallets, member) == []
  {
    var t := TwoRows(address);
    wallets, member := [1, 2], (id: int) => id == 2;
    assert Conflict(t[1], t[2]) && HasOlder(t, 2) && !HasOlder(t, 1);
    QueryDropsOlder(t, 7, 1);
    QueryDropsOlder(t, 7, 2);
    assert wallets[1..] == [2] && [2][1..] == [] && [1][1..] == [];
    assert Filter(member, wallets) == [2];
    assert !Repeats(t, [2], 2);
    assert Filter(Selected(t, 7), wallets) == [1];
  }
}
