/** Daily digest delivery: competing, crashing runs claim one row per account and local date. */
module Digest {
  import opened Collections

  const LEASE_SECONDS := 600
  const MAX_ATTEMPTS := 3
  const MAX_RETRY_AFTER := 86400

  datatype Key = Key(account: int, localDate: int)

  datatype Status = Pending | Sent | Failed

  datatype Row = Row(status: Status, attempts: int, attemptedAt: Option<int>, retryAfter: Option<int>)

  /** What the Bot API call ends in; `TelegramError` carries the HTTP status and the server's retry hint. */
  datatype Outcome =
    | Delivered
    | TelegramError(statusCode: Option<int>, retryAfterSeconds: Option<nat>)
    | UnexpectedError

  // ---------- What one run does to one row ----------

  predicate Claimable(row: Row, current: int) {
    && row.status != Sent
    && !(row.retryAfter.Some? && current < row.retryAfter.value)
    && !(row.attempts >= MAX_ATTEMPTS)
    && !(row.status == Pending && row.attemptedAt.Some? && current - row.attemptedAt.value < LEASE_SECONDS)
  }

  function Claimed(row: Option<Row>, current: int): Row {
    if row.None? then Row(Pending, 1, Some(current), None)
    else Row(Pending, row.value.attempts + 1, Some(current), None)
  }

  /** The outcome's UPDATE writes only what it changed: `retry_after` stays as stored unless a hint came. */
  function Settled(row: Row, outcome: Outcome, current: int): Row {
    match outcome
    case Delivered => row.(status := Sent)
    case UnexpectedError => row.(status := Failed)
    case TelegramError(_, hint) =>
      row.(status := Failed,
           retryAfter := if hint.None? then row.retryAfter
                         else Some(current + if hint.value < MAX_RETRY_AFTER then hint.value else MAX_RETRY_AFTER))
  }

  predicate Forbidden(outcome: Outcome) {
    outcome.TelegramError? && outcome.statusCode == Some(403)
  }

  // ---------- Competing runs ----------

  datatype Pc =
    | Idle
    | Inserting(key: Key)                  // saw no row
    | Holding(key: Key)                    // saw a claimable row and holds its lock
    | Sending(key: Key)                    // claim committed, call not yet made
    | Called(key: Key, outcome: Outcome)   // call made, outcome not yet committed
    | Gone                                 // finished or crashed

  /** `locks` are the rows read FOR UPDATE since the run's last commit or rollback. */
  datatype Worker = Worker(current: int, todo: set<Key>, pc: Pc, locks: set<Key>)

  datatype Event =
    | Call(run: int, key: Key, outcome: Outcome)
    | Committed(run: int, key: Key, outcome: Outcome)
    | CrashedAfterCall(run: int, key: Key, outcome: Outcome)

  datatype State = State(
    clock: int, rows: map<Key, Row>, enabled: set<int>, workers: map<int, Worker>, log: seq<Event>)

  datatype Step =
    | Tick(clock: int)
    | OptIn(account: int)
    | Start(run: int, due: set<Key>)
    | Select(run: int, key: Key)
    | ClaimInsert(run: int)
    | ClaimUpdate(run: int)
    | Send(run: int, outcome: Outcome)
    | CommitOutcome(run: int)
    | Crash(run: int)

  predicate LockedByOther(s: State, run: int, key: Key) {
    exists v :: v in s.workers && v != run && key in s.workers[v].locks
  }

  predicate Enabled(s: State, step: Step) {
    match step
    case Tick(clock) => clock >= s.clock
    case OptIn(_) => true
    case Start(run, due) => run !in s.workers && forall k :: k in due ==> k.account in s.enabled
    case Select(run, key) =>
      && run in s.workers && s.workers[run].pc == Idle && key in s.workers[run].todo
      && (key in s.rows ==> !LockedByOther(s, run, key))
    case ClaimInsert(run) => run in s.workers && s.workers[run].pc.Inserting?
    case ClaimUpdate(run) => run in s.workers && s.workers[run].pc.Holding?
    case Send(run, _) => run in s.workers && s.workers[run].pc.Sending?
    case CommitOutcome(run) =>
      run in s.workers && s.workers[run].pc.Called? && !LockedByOther(s, run, s.workers[run].pc.key)
    case Crash(run) => run in s.workers
  }

  function Lookup(rows: map<Key, Row>, key: Key): Option<Row> {
    if key in rows then Some(rows[key]) else None
  }

  function Apply(s: State, step: Step): State
    requires Enabled(s, step)
  {
    match step
    case Tick(clock) => s.(clock := clock)
    case OptIn(account) => s.(enabled := s.enabled + {account})
    case Start(run, due) => s.(workers := s.workers[run := Worker(s.clock, due, Idle, {})])
    case Select(run, key) =>
      var w := s.workers[run].(todo := s.workers[run].todo - {key});
      s.(workers := s.workers[run :=
           if key !in s.rows then w.(pc := Inserting(key))
           else w.(pc := if Claimable(s.rows[key], w.current) then Holding(key) else Idle, locks := w.locks + {key})])
    case ClaimInsert(run) =>
      var w := s.workers[run];
      var key := w.pc.key;
      if key in s.rows then s.(workers := s.workers[run := w.(pc := Idle, locks := {})])
      else s.(rows := s.rows[key := Claimed(None, w.current)],
              workers := s.workers[run := w.(pc := Sending(key), locks := {})])
    case ClaimUpdate(run) =>
      var w := s.workers[run];
      var key := w.pc.key;
      s.(rows := s.rows[key := Claimed(Lookup(s.rows, key), w.current)],
         workers := s.workers[run := w.(pc := Sending(key), locks := {})])
    case Send(run, outcome) =>
      var w := s.workers[run];
      s.(workers := s.workers[run := w.(pc := Called(w.pc.key, outcome))],
         log := s.log + [Call(run, w.pc.key, outcome)])
    case CommitOutcome(run) =>
      var w := s.workers[run];
      var key := w.pc.key;
      s.(rows := if key in s.rows then s.rows[key := Settled(s.rows[key], w.pc.outcome, w.current)] else s.rows,
         enabled := if Forbidden(w.pc.outcome) then s.enabled - {key.account} else s.enabled,
         workers := s.workers[run := w.(pc := Idle, locks := {})],
         log := s.log + [Committed(run, key, w.pc.outcome)])
    case Crash(run) =>
      var w := s.workers[run];
      s.(workers := s.workers[run := w.(pc := Gone, locks := {})],
         log := if w.pc.Called? then s.log + [CrashedAfterCall(run, w.pc.key, w.pc.outcome)] else s.log)
  }

  ghost predicate Exec(states: seq<State>, steps: seq<Step>) {
    && |states| == |steps| + 1
    && forall i :: 0 <= i < |steps| ==> Enabled(states[i], steps[i]) && states[i + 1] == Apply(states[i], steps[i])
  }

  /** Any stored rows, no run yet. */
  ghost predicate Initial(s: State) {
    && s.workers == map[] && s.log == []
    && forall k :: k in s.rows ==> 0 <= s.rows[k].attempts <= MAX_ATTEMPTS
  }

  // ---------- Counting ----------

  ghost function Count(log: seq<Event>, p: Event -> bool): nat {
    if log == [] then 0
    else Count(log[..|log| - 1], p) + if p(log[|log| - 1]) then 1 else 0
  }

  lemma CountSnoc(log: seq<Event>, e: Event, p: Event -> bool)
    ensures Count(log + [e], p) == Count(log, p) + if p(e) then 1 else 0
  {
    assert (log + [e])[..|log|] == log;
  }

  function CallsOf(key: Key): Event -> bool {
    (e: Event) => e.Call? && e.key == key
  }

  ghost function Attempts(s: State, key: Key): int {
    if key in s.rows then s.rows[key].attempts else 0
  }

  ghost function SendingRuns(s: State, key: Key): set<int> {
    set w | w in s.workers && s.workers[w].pc == Sending(key)
  }

  // ---------- Safety without any timing hypothesis ----------

  ghost predicate LocksExclusive(s: State) {
    && (forall v, w :: v in s.workers && w in s.workers && v != w ==> s.workers[v].locks !! s.workers[w].locks)
    && (forall w :: w in s.workers && s.workers[w].pc.Holding? ==>
          && s.workers[w].pc.key in s.workers[w].locks
          && s.workers[w].pc.key in s.rows && Claimable(s.rows[s.workers[w].pc.key], s.workers[w].current))
    && (forall w :: w in s.workers && (s.workers[w].pc.Sending? || s.workers[w].pc.Called?) ==>
          s.workers[w].pc.key in s.rows)
    && (forall w :: w in s.workers ==> s.workers[w].current <= s.clock)
  }

  ghost predicate Budget(s: State, key: Key) {
    Count(s.log, CallsOf(key)) + |SendingRuns(s, key)| <= Attempts(s, key) <= MAX_ATTEMPTS
  }

  lemma {:induction false} StepKeepsLocks(s: State, step: Step)
    requires LocksExclusive(s) && Enabled(s, step)
    ensures LocksExclusive(Apply(s, step))
  {
  }

  lemma SendingAfter(s: State, s': State, run: int, w: Worker, key: Key)
    requires s'.workers == s.workers[run := w]
    ensures SendingRuns(s', key)
            == if w.pc == Sending(key) then SendingRuns(s, key) + {run} else SendingRuns(s, key) - {run}
  {
  }

  lemma NotACall(log: seq<Event>, e: Event, key: Key)
    requires !e.Call?
    ensures Count(log + [e], CallsOf(key)) == Count(log, CallsOf(key))
  {
    CountSnoc(log, e, CallsOf(key));
  }

  lemma {:induction false} ClaimKeepsBudget(s: State, step: Step, key: Key)
    requires Enabled(s, step) && Budget(s, key) && (step.ClaimInsert? || step.ClaimUpdate?)
    requires step.ClaimUpdate? ==>
               && s.workers[step.run].pc.key in s.rows
               && Claimable(s.rows[s.workers[step.run].pc.key], s.workers[step.run].current)
    ensures Budget(Apply(s, step), key) && Attempts(s, key) <= Attempts(Apply(s, step), key)
  {
    var s' := Apply(s, step);
    SendingAfter(s, s', step.run, s'.workers[step.run], key);
    assert step.run !in SendingRuns(s, key) && s'.log == s.log;
  }

  lemma SendKeepsBudget(s: State, step: Step, key: Key)
    requires Enabled(s, step) && Budget(s, key) && step.Send?
    ensures Budget(Apply(s, step), key) && Attempts(s, key) == Attempts(Apply(s, step), key)
  {
    var s' := Apply(s, step);
    var sending := SendingRuns(s, key);
    SendingAfter(s, s', step.run, s'.workers[step.run], key);
    CountSnoc(s.log, Call(step.run, s.workers[step.run].pc.key, step.outcome), CallsOf(key));
    if s.workers[step.run].pc.key == key {
      assert step.run in sending && SendingRuns(s', key) == sending - {step.run};
      assert |sending - {step.run}| == |sending| - 1;
    } else {
      assert step.run !in sending && SendingRuns(s', key) == sending;
    }
  }

  /** A claim spends an attempt before the call it pays for; nothing gives an attempt back. */
  lemma {:induction false} StepKeepsBudget(s: State, step: Step, key: Key)
    requires LocksExclusive(s) && Enabled(s, step) && Budget(s, key)
    ensures Budget(Apply(s, step), key)
    ensures Attempts(s, key) <= Attempts(Apply(s, step), key)
  {
    var s' := Apply(s, step);
    match step
    case Tick(_) => assert SendingRuns(s', key) == SendingRuns(s, key);
    case OptIn(_) => assert SendingRuns(s', key) == SendingRuns(s, key);
    case ClaimInsert(run) => ClaimKeepsBudget(s, step, key);
    case ClaimUpdate(run) => ClaimKeepsBudget(s, step, key);
    case Send(run, outcome) => SendKeepsBudget(s, step, key);
    case Start(run, _) => SendingAfter(s, s', run, s'.workers[run], key);
    case Select(run, _) => SendingAfter(s, s', run, s'.workers[run], key);
    case CommitOutcome(run) =>
      SendingAfter(s, s', run, s'.workers[run], key);
      NotACall(s.log, Committed(run, s.workers[run].pc.key, s.workers[run].pc.outcome), key);
    case Crash(run) =>
      SendingAfter(s, s', run, s'.workers[run], key);
      var pc := s.workers[run].pc;
      if pc.Called? {
        NotACall(s.log, CrashedAfterCall(run, pc.key, pc.outcome), key);
      }
  }

  lemma {:induction false} ExecKeepsBudget(states: seq<State>, steps: seq<Step>, key: Key)
    requires Exec(states, steps) && Initial(states[0])
    ensures forall i :: 0 <= i < |states| ==> LocksExclusive(states[i]) && Budget(states[i], key)
  {
    assert SendingRuns(states[0], key) == {};
    for n := 0 to |steps|
      invariant forall i :: 0 <= i <= n ==> LocksExclusive(states[i]) && Budget(states[i], key)
    {
      StepKeepsLocks(states[n], steps[n]);
      StepKeepsBudget(states[n], steps[n], key);
    }
  }

  /** However runs interleave and crash: calls never exceed recorded attempts, and attempts never exceed
      three or fall. */
  lemma {:induction false} CallsWithinAttempts(states: seq<State>, steps: seq<Step>, key: Key, i: nat, j: nat)
    requires Exec(states, steps) && Initial(states[0]) && i <= j < |states|
    ensures Count(states[i].log, CallsOf(key)) <= Attempts(states[i], key) <= Attempts(states[j], key) <= 3
  {
    ExecKeepsBudget(states, steps, key);
    for n := i to j
      invariant Attempts(states[i], key) <= Attempts(states[n], key)
    {
      StepKeepsBudget(states[n], steps[n], key);
    }
  }

  /** A claim passes every guard at the moment it commits, not only when the row was read. */
  lemma {:induction false} ClaimsPassTheGuards(states: seq<State>, steps: seq<Step>, n: nat)
    requires Exec(states, steps) && Initial(states[0]) && n < |steps|
    requires steps[n].ClaimUpdate? || steps[n].ClaimInsert?
    ensures var s, w := states[n], states[n].workers[steps[n].run];
            var key := w.pc.key;
            states[n + 1].rows != s.rows ==>
              && w.current <= s.clock
              && (key in s.rows ==>
                   && Claimable(s.rows[key], w.current)
                   && (s.rows[key].retryAfter.Some? ==> s.rows[key].retryAfter.value <= w.current)
                   && s.rows[key].attempts < MAX_ATTEMPTS && s.rows[key].status != Sent)
  {
    ExecKeepsBudget(states, steps, states[n].workers[steps[n].run].pc.key);
  }

  /** Reading a row: it is held for a claim exactly when it was not sent, no later retry time is recorded, attempts
      are left, and a pending attempt is ten minutes old. */
  lemma SelectMeaning(s: State, run: int, key: Key)
    requires Enabled(s, Select(run, key))
    ensures var current, pc := s.workers[run].current, Apply(s, Select(run, key)).workers[run].pc;
            && Apply(s, Select(run, key)).rows == s.rows
            && (pc == Inserting(key) <==> key !in s.rows)
            && (pc == Holding(key) <==>
                  && key in s.rows
                  && s.rows[key].status != Sent
                  && (s.rows[key].retryAfter.Some? ==> s.rows[key].retryAfter.value <= current)
                  && s.rows[key].attempts < 3
                  && (s.rows[key].status == Pending && s.rows[key].attemptedAt.Some? ==>
                        current - s.rows[key].attemptedAt.value >= 600))
            && (pc == Inserting(key) || pc == Holding(key) || pc == Idle)
  {
  }

  /** A claim: one more attempt, stamped with the run's start, pending, and without a retry time. */
  lemma ClaimMeaning(s: State, step: Step)
    requires Enabled(s, step) && (step.ClaimInsert? || (step.ClaimUpdate? && s.workers[step.run].pc.key in s.rows))
    ensures var w, s' := s.workers[step.run], Apply(s, step);
            var key := w.pc.key;
            && key in s'.rows
            && (forall k :: k != key ==> Lookup(s'.rows, k) == Lookup(s.rows, k))
            && (step.ClaimInsert? && key in s.rows ==> s'.rows == s.rows && s'.workers[step.run].pc == Idle)
            && (step.ClaimUpdate? || key !in s.rows ==>
                  && s'.rows[key].status == Pending && s'.rows[key].attemptedAt == Some(w.current)
                  && s'.rows[key].attempts == (if key in s.rows then s.rows[key].attempts + 1 else 1)
                  && s'.rows[key].retryAfter == None && s'.workers[step.run].pc == Sending(key))
  {
  }

  /** A committed outcome: sent or failed; the server's hint, cut at a day, recorded from the run's start; the
      opt-in withdrawn exactly on a 403; everything else as it was. */
  lemma OutcomeMeaning(s: State, run: int)
    requires Enabled(s, CommitOutcome(run)) && s.workers[run].pc.key in s.rows
    ensures var w, s' := s.workers[run], Apply(s, CommitOutcome(run));
            var key, outcome, before, after := w.pc.key, w.pc.outcome, s.rows[w.pc.key], s'.rows[w.pc.key];
            && s'.rows.Keys == s.rows.Keys && (forall k :: k in s.rows && k != key ==> s'.rows[k] == s.rows[k])
            && (after.status == Sent <==> outcome.Delivered?) && (after.status == Failed <==> !outcome.Delivered?)
            && after.attempts == before.attempts && after.attemptedAt == before.attemptedAt
            && (outcome.TelegramError? && outcome.retryAfterSeconds.Some? ==>
                  var hint := outcome.retryAfterSeconds.value;
                  after.retryAfter == Some(w.current + if hint <= 86400 then hint else 86400))
            && (outcome.TelegramError? ==> outcome.retryAfterSeconds.None? ==> after.retryAfter == before.retryAfter)
            && (!outcome.TelegramError? ==> after.retryAfter == before.retryAfter)
            && (forall a :: a in s'.enabled <==>
                  a in s.enabled && !(a == key.account && outcome.TelegramError? && outcome.statusCode == Some(403)))
  {
  }

  /** In every run: while a row keeps the retry time that a hint left, no run that began earlier claims it. */
  lemma {:induction false} HintIsHonoured(states: seq<State>, steps: seq<Step>, n: nat, m: nat, key: Key, hint: nat)
    requires Exec(states, steps) && Initial(states[0]) && n < m < |steps|
    requires steps[n].CommitOutcome? && states[n].workers[steps[n].run].pc.key == key && key in states[n].rows
    requires states[n].workers[steps[n].run].pc.outcome.TelegramError?
    requires states[n].workers[steps[n].run].pc.outcome.retryAfterSeconds == Some(hint)
    requires key in states[m].rows && states[m].rows[key].retryAfter == states[n + 1].rows[key].retryAfter
    requires steps[m].ClaimUpdate? || steps[m].ClaimInsert?
    requires states[m].workers[steps[m].run].current
             < states[n].workers[steps[n].run].current + if hint <= 86400 then hint else 86400
    ensures Lookup(states[m + 1].rows, key) == Lookup(states[m].rows, key)
  {
    assert Enabled(states[n], steps[n]) && states[n + 1] == Apply(states[n], steps[n]);
    OutcomeMeaning(states[n], steps[n].run);
    ExecKeepsBudget(states, steps, key);
    assert Enabled(states[m], steps[m]) && states[m + 1] == Apply(states[m], steps[m]);
  }

  /** A stored `retry_after` changes only to nothing at a claim, or to at most a day past the failing run's clock. */
  lemma {:induction false} RetryAfterBounded(s: State, step: Step, key: Key)
    requires Enabled(s, step) && key in s.rows
    ensures var s' := Apply(s, step);
            && key in s'.rows
            && (s'.rows[key].retryAfter != s.rows[key].retryAfter ==>
                 || s'.rows[key].retryAfter.None?
                 || (step.CommitOutcome? && s.workers[step.run].pc.outcome.TelegramError?
                     && var current := s.workers[step.run].current;
                        current <= s'.rows[key].retryAfter.value <= current + 86400))
  {
  }

  // ---------- Exclusion, when outcomes commit within the lease ----------

  predicate InFlight(w: Worker, key: Key) {
    (w.pc.Sending? || w.pc.Called?) && w.pc.key == key
  }

  /** Between claim and outcome, and still inside the lease its claim stamped. */
  predicate Leased(s: State, run: int, key: Key) {
    run in s.workers && InFlight(s.workers[run], key) && s.clock < s.workers[run].current + LEASE_SECONDS
  }

  ghost predicate LeaseHeld(s: State) {
    && (forall w, k :: Leased(s, w, k) ==>
          k in s.rows && s.rows[k].status == Pending && s.rows[k].attemptedAt == Some(s.workers[w].current))
    && (forall v, w, k :: Leased(s, v, k) && Leased(s, w, k) ==> v == w)
  }

  /** The hypothesis: an outcome that commits does so less than a lease after its run began. */
  predicate Timely(s: State, step: Step) {
    step.CommitOutcome? && step.run in s.workers ==> s.clock < s.workers[step.run].current + LEASE_SECONDS
  }

  lemma {:induction false} StepKeepsLease(s: State, step: Step)
    requires LocksExclusive(s) && LeaseHeld(s) && Enabled(s, step) && Timely(s, step)
    ensures LeaseHeld(Apply(s, step))
  {
    var s' := Apply(s, step);
    var claim := step.ClaimUpdate? || step.ClaimInsert?;
    forall w, k | Leased(s', w, k) && !(claim && w == step.run) ensures Leased(s, w, k) {
    }
    if claim {
      var key := s.workers[step.run].pc.key;
      if s'.rows != s.rows {
        forall v ensures !Leased(s, v, key) {
        }
      }
    }
    if step.CommitOutcome? {
      var key := s.workers[step.run].pc.key;
      assert Leased(s, step.run, key);
    }
  }

  /** Once sent, a row never changes again. */
  lemma {:induction false} SentIsAbsorbing(s: State, step: Step, key: Key)
    requires LocksExclusive(s) && LeaseHeld(s) && Enabled(s, step) && Timely(s, step)
    requires key in s.rows && s.rows[key].status == Sent
    ensures key in Apply(s, step).rows && Apply(s, step).rows[key] == s.rows[key]
  {
    if step.CommitOutcome? {
      assert Leased(s, step.run, s.workers[step.run].pc.key);
    }
  }

  // ---------- Successful sends ----------

  function OkCalls(key: Key): Event -> bool {
    (e: Event) => e.Call? && e.key == key && e.outcome.Delivered?
  }

  function OkCommits(key: Key): Event -> bool {
    (e: Event) => e.Committed? && e.key == key && e.outcome.Delivered?
  }

  function OkCrashes(key: Key): Event -> bool {
    (e: Event) => e.CrashedAfterCall? && e.key == key && e.outcome.Delivered?
  }

  ghost function Undecided(s: State, key: Key): set<int> {
    set w | w in s.workers && s.workers[w].pc == Called(key, Delivered)
  }

  /** Every successful call is committed, lost to a crash, or still waiting to commit. */
  ghost predicate Accounted(s: State, key: Key) {
    && Count(s.log, OkCalls(key)) == Count(s.log, OkCommits(key)) + Count(s.log, OkCrashes(key)) + |Undecided(s, key)|
    && Count(s.log, OkCommits(key)) <= (if key in s.rows && s.rows[key].status == Sent then 1 else 0)
  }

  lemma UndecidedAfter(s: State, s': State, run: int, w: Worker, key: Key)
    requires s'.workers == s.workers[run := w]
    ensures Undecided(s', key)
            == if w.pc == Called(key, Delivered) then Undecided(s, key) + {run} else Undecided(s, key) - {run}
  {
  }

  lemma CountsSnoc(log: seq<Event>, e: Event, key: Key)
    ensures Count(log + [e], OkCalls(key)) == Count(log, OkCalls(key)) + if OkCalls(key)(e) then 1 else 0
    ensures Count(log + [e], OkCommits(key)) == Count(log, OkCommits(key)) + if OkCommits(key)(e) then 1 else 0
    ensures Count(log + [e], OkCrashes(key)) == Count(log, OkCrashes(key)) + if OkCrashes(key)(e) then 1 else 0
  {
    CountSnoc(log, e, OkCalls(key));
    CountSnoc(log, e, OkCommits(key));
    CountSnoc(log, e, OkCrashes(key));
  }

  lemma {:induction false} StepKeepsAccounts(s: State, step: Step, key: Key)
    requires LocksExclusive(s) && LeaseHeld(s) && Enabled(s, step) && Timely(s, step) && Accounted(s, key)
    ensures Accounted(Apply(s, step), key)
  {
    match step
    case Tick(_) => assert Undecided(Apply(s, step), key) == Undecided(s, key);
    case OptIn(_) => assert Undecided(Apply(s, step), key) == Undecided(s, key);
    case Start(_, _) => QuietStepKeepsAccounts(s, step, key);
    case Select(_, _) => QuietStepKeepsAccounts(s, step, key);
    case ClaimInsert(_) => ClaimKeepsAccounts(s, step, key);
    case ClaimUpdate(_) => ClaimKeepsAccounts(s, step, key);
    case Send(run, outcome) => SendKeepsAccounts(s, run, outcome, key);
    case CommitOutcome(run) => CommitKeepsAccounts(s, run, key);
    case Crash(run) => CrashKeepsAccounts(s, run, key);
  }

  lemma QuietStepKeepsAccounts(s: State, step: Step, key: Key)
    requires Enabled(s, step) && Accounted(s, key) && (step.Start? || step.Select?)
    ensures Accounted(Apply(s, step), key)
  {
    var s' := Apply(s, step);
    UndecidedAfter(s, s', step.run, s'.workers[step.run], key);
    assert step.run !in Undecided(s, key);
  }

  lemma ClaimKeepsAccounts(s: State, step: Step, key: Key)
    requires LocksExclusive(s) && Enabled(s, step) && Accounted(s, key) && (step.ClaimInsert? || step.ClaimUpdate?)
    ensures Accounted(Apply(s, step), key)
  {
    var s' := Apply(s, step);
    UndecidedAfter(s, s', step.run, s'.workers[step.run], key);
    assert step.run !in Undecided(s, key);
  }

  lemma SendKeepsAccounts(s: State, run: int, outcome: Outcome, key: Key)
    requires Enabled(s, Send(run, outcome)) && Accounted(s, key)
    ensures Accounted(Apply(s, Send(run, outcome)), key)
  {
    var s' := Apply(s, Send(run, outcome));
    UndecidedAfter(s, s', run, s'.workers[run], key);
    CountsSnoc(s.log, Call(run, s.workers[run].pc.key, outcome), key);
    assert run !in Undecided(s, key);
  }

  lemma CommitKeepsAccounts(s: State, run: int, key: Key)
    requires LocksExclusive(s) && LeaseHeld(s) && Enabled(s, CommitOutcome(run)) && Accounted(s, key)
    requires Timely(s, CommitOutcome(run))
    ensures Accounted(Apply(s, CommitOutcome(run)), key)
  {
    var s' := Apply(s, CommitOutcome(run));
    var pc := s.workers[run].pc;
    assert Leased(s, run, pc.key);
    UndecidedAfter(s, s', run, s'.workers[run], key);
    CountsSnoc(s.log, Committed(run, pc.key, pc.outcome), key);
    assert run in Undecided(s, key) <==> pc.key == key && pc.outcome.Delivered?;
  }

  lemma CrashKeepsAccounts(s: State, run: int, key: Key)
    requires Enabled(s, Crash(run)) && Accounted(s, key)
    ensures Accounted(Apply(s, Crash(run)), key)
  {
    var s' := Apply(s, Crash(run));
    var pc := s.workers[run].pc;
    UndecidedAfter(s, s', run, s'.workers[run], key);
    if pc.Called? {
      CountsSnoc(s.log, CrashedAfterCall(run, pc.key, pc.outcome), key);
      assert run in Undecided(s, key) <==> pc.key == key && pc.outcome.Delivered?;
    }
  }

  ghost predicate TimelyExec(states: seq<State>, steps: seq<Step>) {
    && Exec(states, steps) && Initial(states[0])
    && forall i :: 0 <= i < |steps| ==> Timely(states[i], steps[i])
  }

  lemma {:induction false} TimelyInv(states: seq<State>, steps: seq<Step>, key: Key)
    requires TimelyExec(states, steps)
    ensures forall i :: 0 <= i < |states| ==>
              LocksExclusive(states[i]) && LeaseHeld(states[i]) && Accounted(states[i], key)
  {
    assert Undecided(states[0], key) == {};
    for n := 0 to |steps|
      invariant forall i :: 0 <= i <= n ==>
        LocksExclusive(states[i]) && LeaseHeld(states[i]) && Accounted(states[i], key)
    {
      assert Timely(states[n], steps[n]);
      StepKeepsLocks(states[n], steps[n]);
      StepKeepsLease(states[n], steps[n]);
      StepKeepsAccounts(states[n], steps[n], key);
    }
  }

  /** Within the lease at most one run is between claim and outcome, and a sent row stays sent. */
  lemma {:induction false} OneRunInFlight(states: seq<State>, steps: seq<Step>, key: Key, i: nat, j: nat)
    requires TimelyExec(states, steps) && i <= j < |states|
    ensures forall v, w :: Leased(states[i], v, key) && Leased(states[i], w, key) ==> v == w
    ensures key in states[i].rows && states[i].rows[key].status == Sent ==>
              && key in states[j].rows && states[j].rows[key] == states[i].rows[key]
              && forall w :: !Leased(states[j], w, key)
  {
    TimelyInv(states, steps, key);
    if key in states[i].rows && states[i].rows[key].status == Sent {
      for n := i to j
        invariant key in states[n].rows && states[n].rows[key] == states[i].rows[key]
      {
        assert Timely(states[n], steps[n]);
        SentIsAbsorbing(states[n], steps[n], key);
      }
    }
  }

  ghost predicate AllWithinLease(s: State, key: Key) {
    forall w :: w in s.workers && InFlight(s.workers[w], key) ==> Leased(s, w, key)
  }

  /** Successful sends number at most one plus the crashes between a successful call and its commit.
      A run past its lease that has neither committed nor crashed counts like a crash. */
  lemma {:induction false} SuccessesBounded(states: seq<State>, steps: seq<Step>, key: Key, i: nat)
    requires TimelyExec(states, steps) && i < |states|
    ensures var s := states[i];
            && Count(s.log, OkCalls(key)) <= 1 + Count(s.log, OkCrashes(key)) + |Undecided(s, key)|
            && (AllWithinLease(s, key) ==> Count(s.log, OkCalls(key)) <= 1 + Count(s.log, OkCrashes(key)))
  {
    TimelyInv(states, steps, key);
    var s := states[i];
    if AllWithinLease(s, key) {
      var undecided := Undecided(s, key);
      forall w ensures w in undecided ==> Leased(s, w, key) {
      }
      if key in s.rows && s.rows[key].status == Sent {
        forall w ensures w !in undecided {
          assert w in undecided ==> Leased(s, w, key);
        }
        NoneIn(undecided);
      } else {
        forall v, w | v in undecided && w in undecided ensures v == w {
          assert Leased(s, v, key) && Leased(s, w, key);
        }
        AtMostOne(undecided);
      }
    }
  }

  // ---------- The lease is the exact bound ----------

  /** An outcome that commits does so less than `bound` seconds after its run began. */
  predicate Within(s: State, step: Step, bound: int) {
    step.CommitOutcome? && step.run in s.workers ==> s.clock < s.workers[step.run].current + bound
  }

  ghost predicate ExecWithin(states: seq<State>, steps: seq<Step>, bound: int) {
    && Exec(states, steps)
    && forall i :: 0 <= i < |steps| ==> Within(states[i], steps[i], bound)
  }

  /** No sent row is ever touched again. */
  ghost predicate KeepsSent(states: seq<State>) {
    forall i, j, key :: 0 <= i <= j < |states| && key in states[i].rows && states[i].rows[key].status == Sent ==>
      key in states[j].rows && states[j].rows[key] == states[i].rows[key]
  }

  /** Sent is final in every run whose outcomes commit within `bound`, if and only if the bound is at most the lease. */
  lemma {:induction false} SentIsFinalIff(bound: int)
    ensures (forall states, steps :: ExecWithin(states, steps, bound) && Initial(states[0]) ==> KeepsSent(states))
            <==> bound <= 600
  {
    if bound <= LEASE_SECONDS {
      forall states, steps | ExecWithin(states, steps, bound) && Initial(states[0]) ensures KeepsSent(states) {
        WithinLeaseKeepsSent(states, steps, bound);
      }
    } else {
      var steps, s := LateOutcomeUndoesSent(bound);
      var states := Witness(NoRuns(), s, steps, bound);
      UndoneNotKept(states, steps, s, bound);
    }
  }

  lemma {:induction false} WithinLeaseKeepsSent(states: seq<State>, steps: seq<Step>, bound: int)
    requires ExecWithin(states, steps, bound) && Initial(states[0]) && bound <= LEASE_SECONDS
    ensures KeepsSent(states)
  {
    assert TimelyExec(states, steps) by {
      forall i | 0 <= i < |steps| ensures Timely(states[i], steps[i]) {
        assert Within(states[i], steps[i], bound);
      }
    }
    forall i, j, key | 0 <= i <= j < |states| && key in states[i].rows && states[i].rows[key].status == Sent
      ensures key in states[j].rows && states[j].rows[key] == states[i].rows[key]
    {
      OneRunInFlight(states, steps, key, i, j);
    }
  }

  /** The late commit of `LateOutcomeUndoesSent`, as a whole run. */
  lemma UndoneNotKept(states: seq<State>, steps: seq<Step>, s: State, bound: int)
    requires ExecWithin(states, steps, bound) && Initial(states[0]) && states[|steps|] == s
    requires DIGEST in s.rows && s.rows[DIGEST].status == Sent
    requires Enabled(s, CommitOutcome(1)) && Within(s, CommitOutcome(1), bound)
    requires DIGEST in Apply(s, CommitOutcome(1)).rows && Apply(s, CommitOutcome(1)).rows[DIGEST].status == Failed
    ensures exists states', steps' ::
              ExecWithin(states', steps', bound) && Initial(states'[0]) && !KeepsSent(states')
  {
    var late := Apply(s, CommitOutcome(1));
    var states', steps' := states + [late], steps + [CommitOutcome(1)];
    assert ExecWithin(states', steps', bound);
    assert states'[|steps|] == s && states'[|steps'|] == late;
  }

  ghost predicate Reaches(from: State, to: State, steps: seq<Step>, bound: int) {
    exists states :: Links(states, from, to, steps, bound)
  }

  ghost predicate Links(states: seq<State>, from: State, to: State, steps: seq<Step>, bound: int) {
    ExecWithin(states, steps, bound) && states[0] == from && states[|steps|] == to
  }

  lemma Witness(from: State, to: State, steps: seq<Step>, bound: int) returns (states: seq<State>)
    requires Reaches(from, to, steps, bound)
    ensures Links(states, from, to, steps, bound)
  {
    states :| Links(states, from, to, steps, bound);
  }

  lemma ReachesStep(from: State, mid: State, steps: seq<Step>, step: Step, bound: int)
    requires Reaches(from, mid, steps, bound) && Enabled(mid, step) && Within(mid, step, bound)
    ensures Reaches(from, Apply(mid, step), steps + [step], bound)
  {
    var states := Witness(from, mid, steps, bound);
    assert Links(states + [Apply(mid, step)], from, Apply(mid, step), steps + [step], bound);
  }

  lemma ReachesNothing(s: State, bound: int)
    ensures Reaches(s, s, [], bound)
  {
    assert Links([s], s, s, [], bound);
  }

  /** The state after run `run` has gone as far as `pc` on `key`. */
  function Progress(s: State, run: int, todo: set<Key>, pc: Pc, locks: set<Key>): State {
    s.(workers := s.workers[run := Worker(s.clock, todo, pc, locks)])
  }

  function AfterCall(s: State, run: int, key: Key, outcome: Outcome): State {
    Progress(s, run, {}, Called(key, outcome), {}).(
      rows := s.rows[key := Claimed(Lookup(s.rows, key), s.clock)],
      log := s.log + [Call(run, key, outcome)])
  }

  ghost predicate Free(s: State, run: int, key: Key) {
    && run !in s.workers && key.account in s.enabled
    && (forall v :: v in s.workers ==> s.workers[v].locks == {})
    && (key in s.rows ==> Claimable(s.rows[key], s.clock))
  }

  function Selected(s: State, run: int, key: Key): State {
    if key in s.rows then Progress(s, run, {}, Holding(key), {key}) else Progress(s, run, {}, Inserting(key), {})
  }

  lemma SelectAfterStart(s: State, run: int, key: Key)
    requires Free(s, run, key)
    ensures Enabled(Progress(s, run, {key}, Idle, {}), Select(run, key))
    ensures Apply(Progress(s, run, {key}, Idle, {}), Select(run, key)) == Selected(s, run, key)
  {
    var s1 := Progress(s, run, {key}, Idle, {});
    assert {key} - {key} == {} && {} + {key} == {key};
    assert Apply(s1, Select(run, key)).workers == Selected(s, run, key).workers;
  }

  lemma StartAndSelect(s: State, run: int, key: Key, bound: int) returns (steps: seq<Step>)
    requires Free(s, run, key)
    ensures Reaches(s, Selected(s, run, key), steps, bound)
  {
    ReachesNothing(s, bound);
    ReachesStep(s, s, [], Start(run, {key}), bound);
    steps := [] + [Start(run, {key})];
    SelectAfterStart(s, run, key);
    ReachesStep(s, Progress(s, run, {key}, Idle, {}), steps, Select(run, key), bound);
    steps := steps + [Select(run, key)];
  }

  lemma ClaimAndSend(s: State, run: int, key: Key, outcome: Outcome, bound: int) returns (steps: seq<Step>)
    requires Free(s, run, key)
    ensures Reaches(s, AfterCall(s, run, key, outcome), steps, bound)
  {
    steps := StartAndSelect(s, run, key, bound);
    var s2 := Selected(s, run, key);
    var claim := if key in s.rows then ClaimUpdate(run) else ClaimInsert(run);
    ReachesStep(s, s2, steps, claim, bound);
    var s3 := Apply(s2, claim);
    steps := steps + [claim];
    ReachesStep(s, s3, steps, Send(run, outcome), bound);
    steps := steps + [Send(run, outcome)];
    assert Apply(s3, Send(run, outcome)).workers == AfterCall(s, run, key, outcome).workers;
  }

  lemma ReachesTrans(from: State, mid: State, to: State, first: seq<Step>, second: seq<Step>, bound: int)
    requires Reaches(from, mid, first, bound) && Reaches(mid, to, second, bound)
    ensures Reaches(from, to, first + second, bound)
  {
    var a := Witness(from, mid, first, bound);
    var b := Witness(mid, to, second, bound);
    var states, steps := a + b[1..], first + second;
    forall i | 0 <= i < |steps|
      ensures Enabled(states[i], steps[i]) && states[i + 1] == Apply(states[i], steps[i])
      ensures Within(states[i], steps[i], bound)
    {
      if i >= |first| {
        assert states[i] == b[i - |first|] && states[i + 1] == b[i - |first| + 1] && steps[i] == second[i - |first|];
        assert Within(b[i - |first|], second[i - |first|], bound);
      } else {
        assert states[i] == a[i] && states[i + 1] == a[i + 1] && steps[i] == first[i];
        assert Within(a[i], first[i], bound);
      }
    }
    assert Links(states, from, to, steps, bound);
  }

  const DIGEST := Key(7, 1)

  function NoRuns(): State {
    State(0, map[], {7}, map[], [])
  }

  /** Let outcomes commit even one second after the lease: a slow run, still within the bound, undoes
      another run's delivery, and the digest can be claimed again. */
  lemma {:induction false} LateOutcomeUndoesSent(bound: int) returns (steps: seq<Step>, s: State)
    requires bound > LEASE_SECONDS
    ensures Reaches(NoRuns(), s, steps, bound) && DIGEST in s.rows && s.rows[DIGEST].status == Sent
    ensures Enabled(s, CommitOutcome(1)) && Within(s, CommitOutcome(1), bound)
    ensures s.clock == s.workers[1].current + LEASE_SECONDS
    ensures var late := Apply(s, CommitOutcome(1));
            && DIGEST in late.rows && late.rows[DIGEST].status == Failed && Free(late, 3, DIGEST)
            && forall w :: w in late.workers ==> late.workers[w].pc.Idle?
    ensures s.log == [Call(1, DIGEST, UnexpectedError), Call(2, DIGEST, Delivered), Committed(2, DIGEST, Delivered)]
  {
    var slow := AfterCall(NoRuns(), 1, DIGEST, UnexpectedError);
    steps := ClaimAndSend(NoRuns(), 1, DIGEST, UnexpectedError, bound);
    ReachesStep(NoRuns(), slow, steps, Tick(LEASE_SECONDS), bound);
    var expired := Apply(slow, Tick(LEASE_SECONDS));
    var more := ClaimAndSend(expired, 2, DIGEST, Delivered, bound);
    var called := AfterCall(expired, 2, DIGEST, Delivered);
    ReachesTrans(NoRuns(), expired, called, steps + [Tick(LEASE_SECONDS)], more, bound);
    steps := steps + [Tick(LEASE_SECONDS)] + more;
    ReachesStep(NoRuns(), called, steps, CommitOutcome(2), bound);
    steps := steps + [CommitOutcome(2)];
    s := Apply(called, CommitOutcome(2));
  }

  ghost predicate NobodyInFlight(s: State, key: Key) {
    forall w :: w in s.workers ==> !InFlight(s.workers[w], key)
  }

  /** Whenever no run is in flight, successful calls are at most one plus the crashes after one. */
  ghost predicate SendsOnce(states: seq<State>) {
    forall i, key :: 0 <= i < |states| && NobodyInFlight(states[i], key) ==>
      Count(states[i].log, OkCalls(key)) <= 1 + Count(states[i].log, OkCrashes(key))
  }

  /** The same bound is exact for sending once. */
  lemma {:induction false} SendsOnceIff(bound: int)
    ensures (forall states, steps :: ExecWithin(states, steps, bound) && Initial(states[0]) ==> SendsOnce(states))
            <==> bound <= 600
  {
    if bound <= LEASE_SECONDS {
      forall states, steps | ExecWithin(states, steps, bound) && Initial(states[0]) ensures SendsOnce(states) {
        WithinLeaseSendsOnce(states, steps, bound);
      }
    } else {
      var steps, s := SentTwice(bound);
      var states := Witness(NoRuns(), s, steps, bound);
      assert !SendsOnce(states) by {
        assert states[|steps|] == s && NobodyInFlight(s, DIGEST);
      }
    }
  }

  lemma {:induction false} WithinLeaseSendsOnce(states: seq<State>, steps: seq<Step>, bound: int)
    requires ExecWithin(states, steps, bound) && Initial(states[0]) && bound <= LEASE_SECONDS
    ensures SendsOnce(states)
  {
    assert TimelyExec(states, steps) by {
      forall i | 0 <= i < |steps| ensures Timely(states[i], steps[i]) {
        assert Within(states[i], steps[i], bound);
      }
    }
    forall i, key | 0 <= i < |states| && NobodyInFlight(states[i], key)
      ensures Count(states[i].log, OkCalls(key)) <= 1 + Count(states[i].log, OkCrashes(key))
    {
      SuccessesBounded(states, steps, key, i);
    }
  }

  /** After the late outcome a third run delivers again: two successes and no crash. */
  lemma {:induction false} SentTwice(bound: int) returns (steps: seq<Step>, s: State)
    requires bound > LEASE_SECONDS
    ensures Reaches(NoRuns(), s, steps, bound) && NobodyInFlight(s, DIGEST)
    ensures Count(s.log, OkCalls(DIGEST)) == 2 && Count(s.log, OkCrashes(DIGEST)) == 0
  {
    steps, s := LateOutcomeUndoesSent(bound);
    ReachesStep(NoRuns(), s, steps, CommitOutcome(1), bound);
    steps := steps + [CommitOutcome(1)];
    var late := Apply(s, CommitOutcome(1));
    var again := ClaimAndSend(late, 3, DIGEST, Delivered, bound);
    var called := AfterCall(late, 3, DIGEST, Delivered);
    ReachesTrans(NoRuns(), late, called, steps, again, bound);
    steps := steps + again;
    ReachesStep(NoRuns(), called, steps, CommitOutcome(3), bound);
    steps := steps + [CommitOutcome(3)];
    TwoSuccesses(s.log, s.workers[1].pc.outcome);
    s := Apply(called, CommitOutcome(3));
  }

  lemma TwoSuccesses(before: seq<Event>, late: Outcome)
    requires before == [Call(1, DIGEST, UnexpectedError), Call(2, DIGEST, Delivered), Committed(2, DIGEST, Delivered)]
    ensures var log :=
              before + [Committed(1, DIGEST, late)] + [Call(3, DIGEST, Delivered)] + [Committed(3, DIGEST, Delivered)];
            Count(log, OkCalls(DIGEST)) == 2 && Count(log, OkCrashes(DIGEST)) == 0
  {
    var first, second := [Call(1, DIGEST, UnexpectedError)], Call(2, DIGEST, Delivered);
    assert before == first + [second] + [Committed(2, DIGEST, Delivered)];
    assert first == [] + [Call(1, DIGEST, UnexpectedError)];
    CountsSnoc([], Call(1, DIGEST, UnexpectedError), DIGEST);
    CountsSnoc(first, second, DIGEST);
    CountsSnoc(first + [second], Committed(2, DIGEST, Delivered), DIGEST);
    CountsSnoc(before, Committed(1, DIGEST, late), DIGEST);
    var log := before + [Committed(1, DIGEST, late)];
    CountsSnoc(log, Call(3, DIGEST, Delivered), DIGEST);
    CountsSnoc(log + [Call(3, DIGEST, Delivered)], Committed(3, DIGEST, Delivered), DIGEST);
  }

  // ---------- The loop of a single run ----------

  predicate Open(rows: map<Key, Row>, key: Key, current: int) {
    key in rows ==> Claimable(rows[key], current)
  }

  function OpenAt(rows: map<Key, Row>, current: int): Key -> bool {
    (key: Key) => Open(rows, key, current)
  }

  /** What one turn leaves stored for its key. */
  function Turned(row: Option<Row>, outcome: Outcome, current: int): Row {
    if row.Some? && !Claimable(row.value, current) then row.value
    else Settled(Claimed(row, current), outcome, current)
  }

  /** One account's turn, claim and outcome together. */
  ghost function Deliver(rows: map<Key, Row>, key: Key, outcome: Outcome, current: int): map<Key, Row> {
    rows[key := Turned(Lookup(rows, key), outcome, current)]
  }

  /** Every due key turned against what was stored for it at the start, everything else as it was. */
  ghost function DeliverAll(rows: map<Key, Row>, due: seq<Key>, answer: Key -> Outcome, current: int): map<Key, Row> {
    map k | k in rows.Keys + (set d | d in due) ::
      if k in due then Turned(Lookup(rows, k), answer(k), current) else rows[k]
  }

  lemma DeliverAllSnoc(rows: map<Key, Row>, due: seq<Key>, key: Key, answer: Key -> Outcome, current: int)
    requires key !in due
    ensures Lookup(DeliverAll(rows, due, answer, current), key) == Lookup(rows, key)
    ensures DeliverAll(rows, due + [key], answer, current)
            == Deliver(DeliverAll(rows, due, answer, current), key, answer(key), current)
  {
  }

  /** The deliveries table and the per-account opt-in, as one uninterrupted run changes them. */
  class Outbox {
    var rows: map<Key, Row>
    var enabled: set<int>

    constructor (rows: map<Key, Row>, enabled: set<int>)
      ensures this.rows == rows && this.enabled == enabled
    {
      this.rows := rows;
      this.enabled := enabled;
    }

    /** One account: guards, claim, call, outcome. */
    method Turn(key: Key, current: int, outcome: Outcome) returns (called: bool)
      modifies this
      ensures called == Open(old(rows), key, current)
      ensures rows == Deliver(old(rows), key, outcome, current)
      ensures called <==> key in old(rows) ==>
                && old(rows)[key].status != Sent
                && (old(rows)[key].retryAfter.Some? ==> old(rows)[key].retryAfter.value <= current)
                && old(rows)[key].attempts < 3
                && (old(rows)[key].status == Pending && old(rows)[key].attemptedAt.Some? ==>
                      current - old(rows)[key].attemptedAt.value >= 600)
      ensures !called ==> rows == old(rows)
      ensures called ==>
                && rows == old(rows)[key := rows[key]]
                && (rows[key].status == if outcome.Delivered? then Sent else Failed)
                && rows[key].attempts == (if key in old(rows) then old(rows)[key].attempts + 1 else 1)
                && rows[key].attemptedAt == Some(current)
                && (outcome.TelegramError? && outcome.retryAfterSeconds.Some? ==>
                      rows[key].retryAfter == Some(current + if outcome.retryAfterSeconds.value <= 86400
                                                             then outcome.retryAfterSeconds.value else 86400))
                && (outcome.TelegramError? ==> outcome.retryAfterSeconds.None? ==> rows[key].retryAfter == None)
                && (!outcome.TelegramError? ==> rows[key].retryAfter == None)
      ensures enabled == if called && outcome.TelegramError? && outcome.statusCode == Some(403)
                         then old(enabled) - {key.account} else old(enabled)
    {
      var delivery;
      if key in rows {
        delivery := rows[key];
        if delivery.status == Sent { return false; }
        if delivery.retryAfter.Some? && current < delivery.retryAfter.value { return false; }
        if delivery.attempts >= MAX_ATTEMPTS { return false; }
        if delivery.status == Pending && delivery.attemptedAt.Some?
           && current - delivery.attemptedAt.value < LEASE_SECONDS { return false; }
        delivery := delivery.(status := Pending, attempts := delivery.attempts + 1,
                              attemptedAt := Some(current), retryAfter := None);
      } else {
        delivery := Row(Pending, 1, Some(current), None);
      }
      match outcome {
        case TelegramError(statusCode, hint) =>
          delivery := delivery.(status := Failed);
          if hint.Some? {
            var seconds := if hint.value < MAX_RETRY_AFTER then hint.value else MAX_RETRY_AFTER;
            delivery := delivery.(retryAfter := Some(current + seconds));
          }
          if statusCode == Some(403) { enabled := enabled - {key.account}; }
        case UnexpectedError => delivery := delivery.(status := Failed);
        case Delivered => delivery := delivery.(status := Sent);
      }
      rows := rows[key := delivery];
      return true;
    }

    /** `due` are the keys of the due accounts; `answer` is what a call for a key would end in. */
    method SendDue(due: seq<Key>, current: int, answer: Key -> Outcome)
      returns (sent: nat, failed: nat, called: seq<Key>)
      requires Distinct(due)
      modifies this
      ensures called == Filter(OpenAt(old(rows), current), due)
      ensures sent == |Filter(DeliveredBy(answer), called)| && sent + failed == |called|
      ensures sent > 0 <==> exists k :: k in called && answer(k).Delivered?
      ensures rows == DeliverAll(old(rows), due, answer, current)
      ensures forall a :: a in enabled <==> a in old(enabled) && !Silenced(called, answer, a)
      ensures forall k :: k !in called ==> Lookup(rows, k) == Lookup(old(rows), k)
      ensures forall k :: k in called ==> k in rows && TurnMeans(Lookup(old(rows), k), rows[k], answer(k), current)
    {
      sent, failed, called := 0, 0, [];
      ghost var start, optedIn := rows, enabled;
      for n := 0 to |due|
        invariant rows == DeliverAll(start, due[..n], answer, current)
        invariant called == Filter(OpenAt(start, current), due[..n])
        invariant sent == |Filter(DeliveredBy(answer), called)| && sent + failed == |called|
        invariant forall a :: a in enabled <==> a in optedIn && !Silenced(called, answer, a)
      {
        var key := due[n];
        NextTurn(start, due, n, answer, current, called);
        var made := Turn(key, current, answer(key));
        if made {
          called := called + [key];
          if answer(key).Delivered? { sent := sent + 1; } else { failed := failed + 1; }
        }
      }
      assert due[..|due|] == due;
      SomeDelivered(answer, called);
      forall k ensures k !in called ==> Lookup(rows, k) == Lookup(start, k)
               ensures k in called ==> k in rows && TurnMeans(Lookup(start, k), rows[k], answer(k), current)
      {
        TurnOf(start, due, k, answer, current);
      }
    }
  }

  /** What a claimed row looks like after its call. */
  predicate TurnMeans(before: Option<Row>, after: Row, outcome: Outcome, current: int) {
    && (after.status == if outcome.Delivered? then Sent else Failed)
    && after.attempts == (if before.Some? then before.value.attempts + 1 else 1)
    && after.attemptedAt == Some(current)
    && (if outcome.TelegramError? && outcome.retryAfterSeconds.Some?
        then after.retryAfter == Some(current + if outcome.retryAfterSeconds.value <= 86400
                                                then outcome.retryAfterSeconds.value else 86400)
        else after.retryAfter == None)
  }

  lemma TurnOf(start: map<Key, Row>, due: seq<Key>, k: Key, answer: Key -> Outcome, current: int)
    ensures var rows := DeliverAll(start, due, answer, current);
            && (k !in Filter(OpenAt(start, current), due) ==> Lookup(rows, k) == Lookup(start, k))
            && (k in Filter(OpenAt(start, current), due) ==>
                  k in rows && TurnMeans(Lookup(start, k), rows[k], answer(k), current))
  {
  }

  /** A failed call's hint holds off every later turn that starts before it has passed. */
  lemma {:induction false} HintHoldsOffTurns(rows: map<Key, Row>, key: Key, current: int, statusCode: Option<int>,
          hint: nat, later: int, outcome: Outcome)
    requires Open(rows, key, current) && later < current + if hint <= 86400 then hint else 86400
    ensures var failed := Deliver(rows, key, TelegramError(statusCode, Some(hint)), current);
            !Open(failed, key, later) && Deliver(failed, key, outcome, later) == failed
  {
  }

  /** What the loop knows before the n-th turn. */
  lemma NextTurn(start: map<Key, Row>, due: seq<Key>, n: nat, answer: Key -> Outcome, current: int, called: seq<Key>)
    requires Distinct(due) && n < |due|
    ensures var rows := DeliverAll(start, due[..n], answer, current);
            && (Open(rows, due[n], current) <==> Open(start, due[n], current))
            && DeliverAll(start, due[..n + 1], answer, current) == Deliver(rows, due[n], answer(due[n]), current)
    ensures Filter(OpenAt(start, current), due[..n + 1])
            == Filter(OpenAt(start, current), due[..n]) + if Open(start, due[n], current) then [due[n]] else []
    ensures Filter(DeliveredBy(answer), called + [due[n]])
            == Filter(DeliveredBy(answer), called) + if answer(due[n]).Delivered? then [due[n]] else []
    ensures forall a :: Silenced(called + [due[n]], answer, a) <==>
              Silenced(called, answer, a) || (a == due[n].account && Forbidden(answer(due[n])))
  {
    var key := due[n];
    assert due[..n + 1] == due[..n] + [key];
    assert key !in due[..n];
    DeliverAllSnoc(start, due[..n], key, answer, current);
    FilterSnoc(OpenAt(start, current), due[..n], key);
    FilterSnoc(DeliveredBy(answer), called, key);
    SilencedSnoc(called, answer, key);
    assert Lookup(DeliverAll(start, due[..n], answer, current), key) == Lookup(start, key);
  }

  lemma SomeDelivered(answer: Key -> Outcome, called: seq<Key>)
    ensures |Filter(DeliveredBy(answer), called)| > 0 <==> exists k :: k in called && answer(k).Delivered?
  {
    var delivered := Filter(DeliveredBy(answer), called);
    if delivered != [] {
      assert delivered[0] in delivered;
    }
    if k :| k in called && answer(k).Delivered? {
      assert k in delivered;
    }
  }

  function DeliveredBy(answer: Key -> Outcome): Key -> bool {
    (k: Key) => answer(k).Delivered?
  }

  /** Some call for the account was answered 403. */
  ghost predicate Silenced(called: seq<Key>, answer: Key -> Outcome, account: int) {
    exists k :: k in called && k.account == account && Forbidden(answer(k))
  }

  lemma SilencedSnoc(called: seq<Key>, answer: Key -> Outcome, key: Key)
    ensures forall a :: Silenced(called + [key], answer, a) <==>
              Silenced(called, answer, a) || (a == key.account && Forbidden(answer(key)))
  {
    forall a ensures Silenced(called + [key], answer, a) <==>
                       Silenced(called, answer, a) || (a == key.account && Forbidden(answer(key)))
    {
      assert key in called + [key];
      if Silenced(called, answer, a) {
        var k :| k in called && k.account == a && Forbidden(answer(k));
        assert k in called + [key];
      }
    }
  }

  lemma CommitAfterCall(s: State, run: int, key: Key, outcome: Outcome)
    requires Free(s, run, key)
    ensures var called := AfterCall(s, run, key, outcome);
            && Enabled(called, CommitOutcome(run)) && called.clock == s.clock
            && Apply(called, CommitOutcome(run)).rows == Deliver(s.rows, key, outcome, s.clock)
            && Apply(called, CommitOutcome(run)).log == called.log + [Committed(run, key, outcome)]
  {
  }

  /** Left alone, the interleaved protocol takes a key exactly through one turn of the loop. */
  lemma {:induction false} LoneRunIsOneTurn(s: State, run: int, key: Key, outcome: Outcome)
    returns (steps: seq<Step>, s': State)
    requires Free(s, run, key)
    ensures Reaches(s, s', steps, 1)
    ensures s'.rows == Deliver(s.rows, key, outcome, s.clock)
    ensures s'.enabled == if Forbidden(outcome) then s.enabled - {key.account} else s.enabled
    ensures Count(s'.log, CallsOf(key)) == Count(s.log, CallsOf(key)) + 1
  {
    steps := ClaimAndSend(s, run, key, outcome, 1);
    var called := AfterCall(s, run, key, outcome);
    CommitAfterCall(s, run, key, outcome);
    ReachesStep(s, called, steps, CommitOutcome(run), 1);
    steps := steps + [CommitOutcome(run)];
    s' := Apply(called, CommitOutcome(run));
    CountSnoc(s.log, Call(run, key, outcome), CallsOf(key));
    NotACall(called.log, Committed(run, key, outcome), key);
  }
}
