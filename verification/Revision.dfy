/** Which snapshot a wallet's current value is read from, and why it belongs to the current address. */
module Revision {
  import opened Collections
  import opened Text
  import opened Wallets
  import Base58

  /** A stored wallet snapshot. `runAt` is its run's creation time; `address` is what the run collected. */
  datatype Snapshot = Snapshot(id: int, walletId: int, status: string, runAt: int, address: Option<string>)

  // ---------- Selection ----------

  predicate Readable(s: Snapshot) {
    s.status == "success" || s.status == "partial_success"
  }

  predicate Eligible(s: Snapshot, walletId: int, addressUpdatedAt: int) {
    s.walletId == walletId && Readable(s) && s.runAt >= addressUpdatedAt
  }

  function EligibleOf(walletId: int, addressUpdatedAt: int): Snapshot -> bool {
    (s: Snapshot) => Eligible(s, walletId, addressUpdatedAt)
  }

  predicate NewerOrSame(s: Snapshot, q: Snapshot) {
    s.runAt > q.runAt || (s.runAt == q.runAt && s.id >= q.id)
  }

  function NewerThan(q: Snapshot): Snapshot -> bool {
    (s: Snapshot) => s != q && NewerOrSame(s, q)
  }

  /** `row_number()` within the wallet's partition. */
  function RowNumber(rows: seq<Snapshot>, s: Snapshot): nat {
    |Filter(NewerThan(s), rows)| + 1
  }

  /** A readable snapshot of the wallet from a run no older than the stamp, if there is one; every other such
      snapshot is from a run that started earlier, or at the same time and has a lower id. */
  ghost predicate NewestStarted(snapshots: seq<Snapshot>, walletId: int, addressUpdatedAt: int,
          best: Option<Snapshot>) {
    && (best.None? ==>
          forall s :: s in snapshots && s.walletId == walletId && s.status in {"success", "partial_success"} ==>
            s.runAt < addressUpdatedAt)
    && (best.Some? ==>
          && best.value in snapshots && best.value.walletId == walletId
          && best.value.status in {"success", "partial_success"} && best.value.runAt >= addressUpdatedAt
          && forall q :: q in snapshots && q != best.value && q.walletId == walletId
                         && q.status in {"success", "partial_success"} && q.runAt >= addressUpdatedAt ==>
               q.runAt < best.value.runAt || (q.runAt == best.value.runAt && q.id < best.value.id))
  }

  /** The batch query: the row whose rank is 1, found by one pass over the ranked rows. */
  method RankedLatest(snapshots: seq<Snapshot>, walletId: int, addressUpdatedAt: int) returns (best: Option<Snapshot>)
    requires UniqueIds(snapshots)
    ensures best == Newest(snapshots, walletId, addressUpdatedAt)
    ensures NewestStarted(snapshots, walletId, addressUpdatedAt, best)
  {
    var rows := Filter(EligibleOf(walletId, addressUpdatedAt), snapshots);
    for n := 0 to |rows|
      invariant forall i :: 0 <= i < n ==> RowNumber(rows, rows[i]) != 1
    {
      if RowNumber(rows, rows[n]) == 1 {
        RankOneIsNewest(snapshots, rows, walletId, addressUpdatedAt, rows[n]);
        NewestMeaning(snapshots, walletId, addressUpdatedAt);
        return Some(rows[n]);
      }
    }
    NewestHasRankOne(snapshots, rows, walletId, addressUpdatedAt);
    NewestMeaning(snapshots, walletId, addressUpdatedAt);
    return None;
  }

  /** The single-wallet query: ORDER BY ... DESC LIMIT 1. */
  method LimitOneLatest(snapshots: seq<Snapshot>, walletId: int, addressUpdatedAt: int) returns (best: Option<Snapshot>)
    requires UniqueIds(snapshots)
    ensures best == Newest(snapshots, walletId, addressUpdatedAt)
    ensures NewestStarted(snapshots, walletId, addressUpdatedAt, best)
  {
    NewestMeaning(snapshots, walletId, addressUpdatedAt);
    var rows := Filter(EligibleOf(walletId, addressUpdatedAt), snapshots);
    var sorted := Sort(NewerOrSame, rows);
    var always := (x: Snapshot, y: Snapshot) => true;
    SortOrdered(NewerOrSame, always, rows);
    SortContents(NewerOrSame, rows);
    if sorted == [] {
      return None;
    }
    forall q | q in rows ensures NewerOrSame(sorted[0], q) {
      var i :| 0 <= i < |sorted| && sorted[i] == q;
      assert i == 0 || Ordered(NewerOrSame, always)(sorted[0], sorted[i]);
    }
    assert sorted[0] in rows;
    NewestIsUnique(snapshots, walletId, addressUpdatedAt, sorted[0]);
    return Some(sorted[0]);
  }

  ghost predicate UniqueIds(snapshots: seq<Snapshot>) {
    forall s, q :: s in snapshots && q in snapshots && s.id == q.id ==> s == q
  }

  ghost predicate IsNewest(snapshots: seq<Snapshot>, walletId: int, addressUpdatedAt: int, s: Snapshot) {
    && s in snapshots && Eligible(s, walletId, addressUpdatedAt)
    && forall q :: q in snapshots && Eligible(q, walletId, addressUpdatedAt) ==> NewerOrSame(s, q)
  }

  /** The newest-started readable snapshot of the current address revision, ties going to the higher id. */
  ghost function Newest(snapshots: seq<Snapshot>, walletId: int, addressUpdatedAt: int): (best: Option<Snapshot>)
    ensures best.Some? ==> IsNewest(snapshots, walletId, addressUpdatedAt, best.value)
    ensures best.None? ==> forall s :: s in snapshots ==> !Eligible(s, walletId, addressUpdatedAt)
  {
    if snapshots == [] then None
    else
      var last := snapshots[|snapshots| - 1];
      assert snapshots == snapshots[..|snapshots| - 1] + [last];
      var best := Newest(snapshots[..|snapshots| - 1], walletId, addressUpdatedAt);
      if Eligible(last, walletId, addressUpdatedAt) && (best.None? || NewerOrSame(last, best.value)) then Some(last)
      else best
  }

  lemma NewestMeaning(snapshots: seq<Snapshot>, walletId: int, addressUpdatedAt: int)
    requires UniqueIds(snapshots)
    ensures NewestStarted(snapshots, walletId, addressUpdatedAt, Newest(snapshots, walletId, addressUpdatedAt))
  {
    var best := Newest(snapshots, walletId, addressUpdatedAt);
    if best.Some? {
      assert IsNewest(snapshots, walletId, addressUpdatedAt, best.value);
    }
  }

  lemma NewestIsUnique(snapshots: seq<Snapshot>, walletId: int, addressUpdatedAt: int, s: Snapshot)
    requires UniqueIds(snapshots) && IsNewest(snapshots, walletId, addressUpdatedAt, s)
    ensures Newest(snapshots, walletId, addressUpdatedAt) == Some(s)
  {
  }

  lemma RankOneIsNewest(snapshots: seq<Snapshot>, rows: seq<Snapshot>, walletId: int, addressUpdatedAt: int,
          s: Snapshot)
    requires UniqueIds(snapshots) && rows == Filter(EligibleOf(walletId, addressUpdatedAt), snapshots)
    requires s in rows && RowNumber(rows, s) == 1
    ensures Newest(snapshots, walletId, addressUpdatedAt) == Some(s)
  {
    forall q | q in rows ensures NewerOrSame(s, q) {
      assert q !in Filter(NewerThan(s), rows);
    }
    NewestIsUnique(snapshots, walletId, addressUpdatedAt, s);
  }

  lemma NewestHasRankOne(snapshots: seq<Snapshot>, rows: seq<Snapshot>, walletId: int, addressUpdatedAt: int)
    requires UniqueIds(snapshots) && rows == Filter(EligibleOf(walletId, addressUpdatedAt), snapshots)
    ensures Newest(snapshots, walletId, addressUpdatedAt).Some? ==>
              exists i :: 0 <= i < |rows| && RowNumber(rows, rows[i]) == 1
  {
    var best := Newest(snapshots, walletId, addressUpdatedAt);
    if best.Some? {
      forall q | q in rows ensures !NewerThan(best.value)(q) {
        assert NewerOrSame(best.value, q);
      }
      FilterNone(NewerThan(best.value), rows);
      var i :| 0 <= i < |rows| && rows[i] == best.value;
      assert RowNumber(rows, rows[i]) == 1;
    }
  }

  // ---------- Histories of writes and snapshot runs ----------

  /** A run's copy of a wallet's address, by run and wallet. */
  type Captures = map<(int, int), Option<string>>

  /** `runs` maps a run to its creation time. Every step happens at a clock reading of its own. */
  datatype State = State(table: Table, runs: map<int, int>, captured: Captures, snapshots: seq<Snapshot>, clock: int)

  datatype Step =
    | Write(what: Request, freshId: int)
    | StartRun(run: int)
    | Capture(run: int, walletId: int)
    | Collect(run: int, snapshotId: int, walletId: int, status: string)

  /** The whole request, check and commit, at one instant. */
  ghost predicate Writes(t: Table, what: Request, now: int, freshId: int, t': Table) {
    var d := Decide(t, what, now);
    && (d.Prepared? ==> Applicable(t, d.change, freshId))
    && t' == After(t, d, freshId)
  }

  ghost predicate Next(s: State, step: Step, s': State) {
    && s'.clock > s.clock
    && match step
       case Write(what, freshId) =>
         && Writes(s.table, what, s'.clock, freshId, s'.table)
         && s'.runs == s.runs && s'.captured == s.captured && s'.snapshots == s.snapshots
       case StartRun(run) =>
         && run !in s.runs && s' == s.(runs := s.runs[run := s'.clock], clock := s'.clock)
       case Capture(run, walletId) =>
         && run in s.runs && walletId in s.table
         && s' == s.(captured := s.captured[(run, walletId) := s.table[walletId].address], clock := s'.clock)
       case Collect(run, id, walletId, status) =>
         && (run, walletId) in s.captured && run in s.runs
         && (forall q :: q in s.snapshots ==> q.id != id)
         && s' == s.(snapshots := s.snapshots + [Snapshot(id, walletId, status, s.runs[run],
                                                          s.captured[(run, walletId)])],
                     clock := s'.clock)
  }

  ghost predicate Current(t: Table, s: Snapshot) {
    s.walletId in t && ApiKey(t[s.walletId].kind, s.address) == ApiKey(t[s.walletId].kind, t[s.walletId].address)
  }

  /** The snapshot a run would store of what it captured. */
  function ToCome(runs: map<int, int>, captured: Captures, k: (int, int)): Snapshot
    requires k in captured && k.0 in runs
  {
    Snapshot(0, k.1, "", runs[k.0], captured[k])
  }

  /** A selectable snapshot shows the current address. */
  ghost predicate Faithful(t: Table, q: Snapshot) {
    && q.walletId in t
    && (q.runAt >= t[q.walletId].addressUpdatedAt ==> Current(t, q))
  }

  /** Stored or still to come, a snapshot whose run is no older than the address stamp shows the current address. */
  ghost predicate Inv(s: State) {
    && UniqueIds(s.snapshots)
    && (forall r :: r in s.runs ==> s.runs[r] <= s.clock)
    && (forall i :: i in s.table ==> s.table[i].addressUpdatedAt <= s.clock)
    && (forall q :: q in s.snapshots ==> q.runAt <= s.clock && Faithful(s.table, q))
    && (forall k :: k in s.captured ==> k.0 in s.runs && Faithful(s.table, ToCome(s.runs, s.captured, k)))
  }

  /** The address key is kept, unless the new revision is stamped with the time of the write. */
  ghost predicate Restamped(t: Table, t': Table, now: int, i: int)
    requires i in t
  {
    && i in t' && t'[i].kind == t[i].kind
    && (t'[i].addressUpdatedAt == now
        || (t'[i].addressUpdatedAt == t[i].addressUpdatedAt
            && ApiKey(t[i].kind, t'[i].address) == ApiKey(t[i].kind, t[i].address)))
  }

  lemma WriteStamps(t: Table, what: Request, now: int, freshId: int, t': Table, i: int)
    requires Writes(t, what, now, freshId, t') && i in t
    ensures Restamped(t, t', now, i)
  {
  }

  /** An address is restamped exactly when its key changes, so recasing it hides no snapshot. */
  lemma StampedIffMoved(t: Table, what: Request, now: int, freshId: int, t': Table, i: int)
    requires Writes(t, what, now, freshId, t') && i in t && t[i].addressUpdatedAt != now
    ensures i in t'
    ensures t'[i].addressUpdatedAt != t[i].addressUpdatedAt
            <==> ApiKey(t[i].kind, t'[i].address) != ApiKey(t[i].kind, t[i].address)
  {
  }

  lemma {:induction false} StepKeepsInv(s: State, step: Step, s': State)
    requires Inv(s) && Next(s, step, s')
    ensures Inv(s')
  {
    if step.Write? {
      forall i | i in s.table ensures Restamped(s.table, s'.table, s'.clock, i) {
        WriteStamps(s.table, step.what, s'.clock, step.freshId, s'.table, i);
      }
      NewWalletsAreStamped(s.table, step.what, s'.clock, step.freshId, s'.table);
      StampedKeepsInv(s, s');
    } else {
      RunStepKeepsInv(s, step, s');
    }
  }

  lemma RunStepKeepsInv(s: State, step: Step, s': State)
    requires Inv(s) && Next(s, step, s') && !step.Write?
    ensures Inv(s')
  {
    forall k | k in s'.captured ensures k.0 in s'.runs && Faithful(s'.table, ToCome(s'.runs, s'.captured, k)) {
      if k in s.captured {
        assert Faithful(s.table, ToCome(s.runs, s.captured, k));
      }
    }
    forall q | q in s'.snapshots ensures q.runAt <= s'.clock && Faithful(s'.table, q) {
      if q !in s.snapshots {
        CapturedBefore(s, (step.run, step.walletId));
      }
    }
  }

  lemma StampedKeepsInv(s: State, s': State)
    requires Inv(s) && s'.clock > s.clock
    requires s'.runs == s.runs && s'.captured == s.captured && s'.snapshots == s.snapshots
    requires forall i :: i in s.table ==> Restamped(s.table, s'.table, s'.clock, i)
    requires forall i :: i in s'.table && i !in s.table ==> s'.table[i].addressUpdatedAt == s'.clock
    ensures Inv(s')
  {
    forall i | i in s'.table ensures s'.table[i].addressUpdatedAt <= s'.clock {
      assert i in s.table ==> Restamped(s.table, s'.table, s'.clock, i);
    }
    forall q | q in s.snapshots ensures Faithful(s'.table, q) {
      RestampedKeepsFaithful(s.table, s'.table, s.clock, s'.clock, q);
    }
    forall k | k in s.captured ensures Faithful(s'.table, ToCome(s'.runs, s'.captured, k)) {
      CapturedBefore(s, k);
      RestampedKeepsFaithful(s.table, s'.table, s.clock, s'.clock, ToCome(s.runs, s.captured, k));
    }
  }

  lemma CapturedBefore(s: State, k: (int, int))
    requires Inv(s) && k in s.captured
    ensures k.0 in s.runs && ToCome(s.runs, s.captured, k).runAt <= s.clock
    ensures Faithful(s.table, ToCome(s.runs, s.captured, k))
  {
    var run := k.0;
    assert run in s.runs;
    assert s.runs[run] <= s.clock;
  }

  lemma RestampedKeepsFaithful(t: Table, t': Table, before: int, now: int, q: Snapshot)
    requires Faithful(t, q) && q.runAt <= before < now && Restamped(t, t', now, q.walletId)
    ensures Faithful(t', q)
  {
  }

  lemma NewWalletsAreStamped(t: Table, what: Request, now: int, freshId: int, t': Table)
    requires Writes(t, what, now, freshId, t')
    ensures forall i :: i in t' && i !in t ==> t'[i].addressUpdatedAt == now
  {
  }

  ghost predicate Run(states: seq<State>, steps: seq<Step>) {
    |states| == |steps| + 1 && forall i :: 0 <= i < |steps| ==> Next(states[i], steps[i], states[i + 1])
  }

  /** In every reachable state the snapshot chosen for a wallet was collected for its current address. */
  lemma {:induction false} SelectedShowsCurrentAddress(states: seq<State>, steps: seq<Step>, n: nat, walletId: int)
    requires Run(states, steps) && Inv(states[0]) && n < |states|
    requires walletId in states[n].table
    ensures var s := states[n];
            var best := Newest(s.snapshots, walletId, s.table[walletId].addressUpdatedAt);
            best.Some? ==> best.value.walletId == walletId && Current(s.table, best.value)
  {
    for k := 0 to n
      invariant Inv(states[k])
    {
      StepKeepsInv(states[k], steps[k], states[k + 1]);
    }
  }

  // ---------- Where the hypotheses are needed ----------

  /** Were a run to start at the very instant of an address change, `>=` would pick its old-address snapshot. */
  lemma SameInstantMisleads(t: Table, what: Request, now: int, freshId: int, t': Table, old': Snapshot)
    requires what.Update? && what.id in t && Writes(t, what, now, freshId, t')
    requires ApiKey(t[what.id].kind, t'[what.id].address) != ApiKey(t[what.id].kind, t[what.id].address)
    requires old'.walletId == what.id && old'.address == t[what.id].address && Readable(old') && old'.runAt == now
    ensures Newest([old'], what.id, t'[what.id].addressUpdatedAt) == Some(old') && !Current(t', old')
  {
    WriteStamps(t, what, now, freshId, t', what.id);
    assert t'[what.id].addressUpdatedAt == now;
    assert Eligible(old', what.id, now);
    assert IsNewest([old'], what.id, now, old');
    NewestIsUnique([old'], what.id, now, old');
  }

  function HexAddress(c: char): string {
    "0x" + seq(40, _ => c)
  }

  lemma HexAddressAccepted(c: char)
    requires HexDigit(c)
    ensures NormalizeEvm(Some(HexAddress(c))) == Base58.Address(HexAddress(c))
    ensures Strip(HexAddress(c)) == HexAddress(c)
  {
    var a := HexAddress(c);
    assert a[0] == '0' && a[1] == 'x' && a[41] == c;
    SqlTrimStripped(a);
    assert "0x" + a[2..] == a;
  }

  lemma HexKey(c: char)
    requires HexDigit(c)
    ensures ApiKey(Evm, Some(HexAddress(c))) == HexAddress(LowerChar(c))
    ensures HexAddress(c)[2] == c
  {
    HexAddressAccepted(c);
    assert Lower(HexAddress(c)) == HexAddress(LowerChar(c));
  }

  function OneWallet(c: char): Table {
    map[1 := Wallet(7, Evm, "all", Some(HexAddress(c)), true, 0)]
  }

  lemma DecideHexUpdate(d: char, now: int)
    requires HexDigit(d) && d != 'a'
    ensures Decide(OneWallet('a'), Update(7, 1, None, Some(Some(HexAddress(d))), None), now)
            == Prepared(Patch(1, None, Some(Some(HexAddress(d))), None,
                              if LowerChar(d) != 'a' then Some(now) else None))
  {
    HexAddressAccepted(d);
    HexKey('a');
    HexKey(d);
    assert HexAddress(LowerChar(d))[2] == LowerChar(d);
    assert !Taken(OneWallet('a'), 7, Evm, Some(HexAddress(d)), Some(1));
  }

  lemma CommitAlone(w: Wallet, c: Change)
    requires c.Patch? && c.id == 1
    ensures Commit(map[1 := w], c, 2) == map[1 := Patched(w, c)]
  {
    CommitOfRow(map[1 := w], c, 2, Patched(w, c));
  }

  lemma SelectedAlone(w: Wallet, s: Snapshot)
    requires Eligible(s, 1, w.addressUpdatedAt)
    requires ApiKey(w.kind, s.address) != ApiKey(w.kind, w.address)
    ensures Newest([s], 1, w.addressUpdatedAt) == Some(s) && !Current(map[1 := w], s)
  {
    assert IsNewest([s], 1, w.addressUpdatedAt, s);
    NewestIsUnique([s], 1, w.addressUpdatedAt, s);
  }

  lemma OneWalletIsValid()
    ensures RulesHold(OneWallet('a')) && Unique(OneWallet('a'))
  {
    HexAddressAccepted('a');
  }

  /** Two overlapping updates, one moving the address and one only recasing it: the stamp survives, the
      address does not. */
  lemma OverlappingUpdatesMislead() returns (t: Table, moved: Change, recased: Change, s: Snapshot)
    ensures RulesHold(t) && Unique(t) && 1 in t && t[1].active
    ensures Decide(t, Update(7, 1, None, Some(Some(HexAddress('b'))), None), 10) == Prepared(moved)
    ensures Decide(t, Update(7, 1, None, Some(Some(HexAddress('A'))), None), 11) == Prepared(recased)
    ensures Applicable(t, moved, 2) && Applicable(Commit(t, moved, 2), recased, 2)
    ensures 1 in Commit(t, moved, 2) && s.runAt == 12 && s.address == Commit(t, moved, 2)[1].address
    ensures var both := Commit(Commit(t, moved, 2), recased, 2);
            1 in both && Newest([s], 1, both[1].addressUpdatedAt) == Some(s) && !Current(both, s)
  {
    t := OneWallet('a');
    OneWalletIsValid();
    DecideHexUpdate('b', 10);
    DecideHexUpdate('A', 11);
    moved := Patch(1, None, Some(Some(HexAddress('b'))), None, Some(10));
    recased := Patch(1, None, Some(Some(HexAddress('A'))), None, None);
    s := Snapshot(1, 1, "success", 12, Some(HexAddress('b')));
    var w := Patched(t[1], moved);
    CommitAlone(t[1], moved);
    CommitAlone(w, recased);
    HexKey('A');
    HexKey('b');
    assert HexAddress('a')[2] == 'a' && HexAddress('b')[2] == 'b';
    SelectedAlone(Patched(w, recased), s);
  }
}
