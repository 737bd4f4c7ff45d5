/** Requests that overlap: exactly which commits keep every selectable snapshot on the current address. */
module Overlap {
  import opened Collections
  import opened Wallets
  import R = Revision

  // ---------- One commit ----------

  predicate Moves(w: Wallet, c: Change)
    requires c.Patch?
  {
    ApiKey(w.kind, Patched(w, c).address) != ApiKey(w.kind, w.address)
  }

  /** `started` tells the creation times of the runs so far. A run no older than the stamp the commit leaves
      must be no older than the stamp it finds either, and then the address must stay. */
  ghost predicate Harmless(t: Table, c: Change, started: int -> bool) {
    c.Patch? && c.id in t ==>
      forall at :: started(at) && at >= Patched(t[c.id], c).addressUpdatedAt ==>
        !Moves(t[c.id], c) && at >= t[c.id].addressUpdatedAt
  }

  /** The commit keeps every snapshot faithful that one of those runs may have stored. */
  ghost predicate KeepsFaithful(t: Table, t': Table, started: int -> bool) {
    forall q: R.Snapshot :: started(q.runAt) && R.Faithful(t, q) ==> R.Faithful(t', q)
  }

  function OtherAddress(kind: Kind, address: Option<string>): Option<string> {
    if ApiKey(kind, address) == [] then Some("x") else None
  }

  lemma OtherAddressDiffers(kind: Kind, address: Option<string>)
    ensures ApiKey(kind, OtherAddress(kind, address)) != ApiKey(kind, address)
  {
    assert ApiKey(kind, None) == [];
    assert ApiKey(kind, Some("x")) != [];
  }

  /** A committed patch is safe for whatever snapshots there may be if and only if it is harmless. */
  lemma {:induction false} HarmlessIff(t: Table, c: Change, freshId: int, started: int -> bool)
    requires c.Patch? && Applicable(t, c, freshId) && IndexAdmits(t, c, freshId)
    ensures KeepsFaithful(t, Commit(t, c, freshId), started) <==> Harmless(t, c, started)
  {
    var t' := Commit(t, c, freshId);
    var w := t[c.id];
    var stamp := Patched(w, c).addressUpdatedAt;
    assert t' == t[c.id := Patched(w, c)];
    if Harmless(t, c, started) {
      forall q: R.Snapshot | started(q.runAt) && R.Faithful(t, q) ensures R.Faithful(t', q) {
      }
    } else {
      var at :| started(at) && at >= stamp && (Moves(w, c) || at < w.addressUpdatedAt);
      var q := R.Snapshot(0, c.id, "success", at, if Moves(w, c) then w.address else OtherAddress(w.kind, w.address));
      OtherAddressDiffers(w.kind, w.address);
      assert started(q.runAt) && R.Faithful(t, q) && !R.Faithful(t', q);
    }
  }

  function Until(now: int): int -> bool {
    (at: int) => at <= now
  }

  /** With a stamp later than every run, only a patch that carries an address and no stamp can mislead,
      and it does exactly when the address has meanwhile become another one. */
  lemma {:induction false} FreshStampIff(t: Table, c: Change, freshId: int, now: int)
    requires c.Patch? && Applicable(t, c, freshId) && IndexAdmits(t, c, freshId)
    requires t[c.id].addressUpdatedAt <= now && (c.stamp.Some? ==> c.stamp.value > now)
    ensures KeepsFaithful(t, Commit(t, c, freshId), Until(now))
            <==> (c.address.Some? && c.stamp.None? ==>
                    ApiKey(t[c.id].kind, c.address.value) == ApiKey(t[c.id].kind, t[c.id].address))
  {
    HarmlessIff(t, c, freshId, Until(now));
    assert Until(now)(now);
  }

  /** A commit is harmless when, since its check, nobody else wrote the wallet's address or its stamp, and
      no run started after the stamp was taken. */
  lemma {:induction false} UndisturbedIsHarmless(t: Table, what: Request, now: int, t': Table, started: int -> bool)
    requires Decide(t, what, now).Prepared?
    requires var c := Decide(t, what, now).change;
             c.Patch? && c.id in t ==>
               && c.id in t' && t'[c.id].kind == t[c.id].kind && t'[c.id].address == t[c.id].address
               && t'[c.id].addressUpdatedAt == t[c.id].addressUpdatedAt
               && (c.stamp.Some? ==> forall at :: started(at) ==> at < now)
    ensures Harmless(t', Decide(t, what, now).change, started)
  {
    var c := Decide(t, what, now).change;
    if c.Patch? {
      assert c.stamp.None? ==> !Moves(t[c.id], c);
    }
  }

  // ---------- Interleaved requests, runs and collections ----------

  datatype World = World(
    wallets: State, runs: map<int, int>, captured: R.Captures, snapshots: seq<R.Snapshot>, clock: int)

  datatype Event =
    | Handle(step: Step)
    | StartRun(run: int)
    | Capture(run: int, walletId: int)
    | Collect(run: int, snapshotId: int, walletId: int, status: string)

  /** A check reads the clock for its stamp; its commit may come any number of events later. */
  ghost predicate Follows(s: World, e: Event, s': World) {
    && s'.clock > s.clock
    && match e
       case Handle(step) =>
         && Next(s.wallets, step, s'.wallets) && (step.Begin? ==> step.now == s'.clock)
         && s'.runs == s.runs && s'.captured == s.captured && s'.snapshots == s.snapshots
       case StartRun(run) =>
         && run !in s.runs && s' == s.(runs := s.runs[run := s'.clock], clock := s'.clock)
       case Capture(run, walletId) =>
         && run in s.runs && walletId in s.wallets.table
         && s' == s.(captured := s.captured[(run, walletId) := s.wallets.table[walletId].address], clock := s'.clock)
       case Collect(run, id, walletId, status) =>
         && (run, walletId) in s.captured && run in s.runs
         && (forall q :: q in s.snapshots ==> q.id != id)
         && s' == s.(snapshots := s.snapshots + [R.Snapshot(id, walletId, status, s.runs[run],
                                                            s.captured[(run, walletId)])],
                     clock := s'.clock)
  }

  function Started(runs: map<int, int>): int -> bool {
    (at: int) => at in runs.Values
  }

  /** Stored or still to come. */
  ghost predicate AllFaithful(s: World) {
    && R.UniqueIds(s.snapshots)
    && (forall k :: k in s.captured ==> k.0 in s.runs && R.Faithful(s.wallets.table, R.ToCome(s.runs, s.captured, k)))
    && forall q :: q in s.snapshots ==> q.runAt in s.runs.Values && R.Faithful(s.wallets.table, q)
  }

  /** A commit that the index admits is harmless to the runs started so far; nothing is asked of other events. */
  ghost predicate HarmlessEvent(s: World, e: Event) {
    e.Handle? && e.step.Finish? && e.step.request in s.wallets.pending ==>
      var c := s.wallets.pending[e.step.request];
      Applicable(s.wallets.table, c, e.step.freshId) && IndexAdmits(s.wallets.table, c, e.step.freshId) ==>
        Harmless(s.wallets.table, c, Started(s.runs))
  }

  lemma FinishKeepsFaithful(s: World, e: Event, s': World)
    requires AllFaithful(s) && Follows(s, e, s') && HarmlessEvent(s, e) && e.Handle? && e.step.Finish?
    ensures AllFaithful(s')
  {
    var t, c := s.wallets.table, s.wallets.pending[e.step.request];
    if IndexAdmits(t, c, e.step.freshId) {
      if c.Patch? {
        HarmlessIff(t, c, e.step.freshId, Started(s.runs));
      }
      forall q | q in s.snapshots ensures R.Faithful(s'.wallets.table, q) {
        assert R.Faithful(t, q) && Started(s.runs)(q.runAt);
      }
      forall k | k in s.captured ensures R.Faithful(s'.wallets.table, R.ToCome(s.runs, s.captured, k)) {
        var q := R.ToCome(s.runs, s.captured, k);
        assert R.Faithful(t, q) && Started(s.runs)(q.runAt);
      }
    }
  }

  lemma {:induction false} EventKeepsFaithful(s: World, e: Event, s': World)
    requires AllFaithful(s) && Follows(s, e, s') && HarmlessEvent(s, e)
    ensures AllFaithful(s')
  {
    match e
    case Handle(step) => if step.Finish? { FinishKeepsFaithful(s, e, s'); }
    case _ => RunEventKeepsFaithful(s, e, s');
  }

  lemma RunEventKeepsFaithful(s: World, e: Event, s': World)
    requires AllFaithful(s) && Follows(s, e, s') && !e.Handle?
    ensures AllFaithful(s')
  {
    assert forall r :: r in s.runs ==> r in s'.runs && s'.runs[r] == s.runs[r];
    forall k | k in s'.captured
      ensures k.0 in s'.runs && R.Faithful(s'.wallets.table, R.ToCome(s'.runs, s'.captured, k))
    {
      if k in s.captured {
        assert R.Faithful(s.wallets.table, R.ToCome(s.runs, s.captured, k));
      }
    }
    forall q | q in s'.snapshots ensures q.runAt in s'.runs.Values && R.Faithful(s'.wallets.table, q) {
      if q !in s.snapshots {
        assert R.Faithful(s.wallets.table, R.ToCome(s.runs, s.captured, (e.run, e.walletId)));
      }
    }
  }

  ghost predicate Trail(worlds: seq<World>, events: seq<Event>) {
    && |worlds| == |events| + 1
    && forall i :: 0 <= i < |events| ==> Follows(worlds[i], events[i], worlds[i + 1])
  }

  /** However requests, runs and collections interleave: if every commit is harmless when it happens, then in
      every state the snapshot chosen for a wallet shows its current address. */
  lemma {:induction false} SelectedIsCurrent(worlds: seq<World>, events: seq<Event>, n: nat, walletId: int)
    requires Trail(worlds, events) && AllFaithful(worlds[0]) && n < |worlds|
    requires forall i :: 0 <= i < |events| ==> HarmlessEvent(worlds[i], events[i])
    requires walletId in worlds[n].wallets.table
    ensures var t := worlds[n].wallets.table;
            var best := R.Newest(worlds[n].snapshots, walletId, t[walletId].addressUpdatedAt);
            best.Some? ==> best.value.walletId == walletId && R.Current(t, best.value)
  {
    for k := 0 to n
      invariant AllFaithful(worlds[k])
    {
      assert HarmlessEvent(worlds[k], events[k]);
      EventKeepsFaithful(worlds[k], events[k], worlds[k + 1]);
    }
    var t := worlds[n].wallets.table;
    var best := R.Newest(worlds[n].snapshots, walletId, t[walletId].addressUpdatedAt);
    if best.Some? {
      assert R.Faithful(t, best.value);
    }
  }

  /** Nothing less will do: a commit is safe for every snapshot the runs so far may have stored or captured
      if and only if it is harmless. */
  lemma {:induction false} FinishSafeIff(s: World, e: Event, s': World)
    requires Follows(s, e, s') && e.Handle? && e.step.Finish?
    ensures (forall snapshots, captured ::
               AllFaithful(s.(snapshots := snapshots, captured := captured)) ==>
                 AllFaithful(s'.(snapshots := snapshots, captured := captured)))
            <==> HarmlessEvent(s, e)
  {
    var t, c, freshId := s.wallets.table, s.wallets.pending[e.step.request], e.step.freshId;
    if HarmlessEvent(s, e) {
      forall snapshots, captured | AllFaithful(s.(snapshots := snapshots, captured := captured))
        ensures AllFaithful(s'.(snapshots := snapshots, captured := captured))
      {
        FinishKeepsFaithful(s.(snapshots := snapshots, captured := captured), e,
                            s'.(snapshots := snapshots, captured := captured));
      }
    } else {
      HarmlessIff(t, c, freshId, Started(s.runs));
      var q: R.Snapshot :| Started(s.runs)(q.runAt) && R.Faithful(t, q) && !R.Faithful(Commit(t, c, freshId), q);
      assert q in [q];
      assert AllFaithful(s.(snapshots := [q], captured := map[]));
      assert !AllFaithful(s'.(snapshots := [q], captured := map[]));
    }
  }
}
