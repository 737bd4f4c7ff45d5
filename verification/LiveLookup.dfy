/** Live asset lookups: a cache, one task per key in flight, and four lookup slots, step by event-loop step. */
module LiveLookup {
  import opened Collections
  import AssetsCache

  const SLOTS := 4

  type Payload = AssetsCache.Payload

  /** The event loop's identity and the lower-cased address. */
  datatype FlightKey = FlightKey(loop: int, address: string)

  datatype Result = Served(payload: Payload) | Busy | LookupFailed

  datatype Phase =
    | Queued              // awaiting a slot
    | Granted             // the semaphore has handed over a slot; the task has not resumed
    | Holding             // past the queue, slot held
    | Fetching            // upstream lookup running in its thread
    | Done(result: Result)

  datatype Task = Task(key: FlightKey, phase: Phase, finished: bool)   // finished: its done-callback has run

  datatype Waiter = Waiter(key: FlightKey, task: int)

  /** `produced` records which payloads upstream lookups returned for which address. */
  datatype State = State(
    cache: seq<AssetsCache.Entry>, free: int, inflight: map<FlightKey, int>, tasks: map<int, Task>,
    waiting: map<int, Waiter>, answers: map<int, (FlightKey, Result)>, produced: set<(string, Payload)>)

  datatype Step =
    | Request(request: int, key: FlightKey, now: real, newTask: int)
    | Cancel(request: int)
    | Answer(request: int)
    | Grant(task: int)
    | Resume(task: int)
    | TimeOut(task: int)
    | Recheck(task: int, now: real)
    | Return(task: int, payload: Payload, now: real)
    | Raise(task: int)
    | Callback(task: int)
    | ClearCache

  predicate Enabled(s: State, step: Step) {
    match step
    case Request(r, _, _, newTask) => r !in s.waiting && r !in s.answers && newTask !in s.tasks
    case Cancel(r) => r in s.waiting
    case Answer(r) => r in s.waiting && s.waiting[r].task in s.tasks && s.tasks[s.waiting[r].task].phase.Done?
    case Grant(t) => t in s.tasks && s.tasks[t].phase.Queued? && s.free > 0
    case Resume(t) => t in s.tasks && s.tasks[t].phase.Granted?
    case TimeOut(t) => t in s.tasks && (s.tasks[t].phase.Queued? || s.tasks[t].phase.Granted?)
    case Recheck(t, _) => t in s.tasks && s.tasks[t].phase.Holding?
    case Return(t, _, _) => t in s.tasks && s.tasks[t].phase.Fetching?
    case Raise(t) => t in s.tasks && s.tasks[t].phase.Fetching?
    case Callback(t) => t in s.tasks && s.tasks[t].phase.Done? && !s.tasks[t].finished
    case ClearCache => true
  }

  function Phased(s: State, t: int, phase: Phase): map<int, Task>
    requires t in s.tasks
  {
    s.tasks[t := s.tasks[t].(phase := phase)]
  }

  function Apply(s: State, step: Step): State
    requires Enabled(s, step)
  {
    match step
    case Request(r, key, now, newTask) =>
      var hit := AssetsCache.Hit(s.cache, key.address, now);
      var s1 := s.(cache := AssetsCache.Got(s.cache, key.address, now));
      if hit.Some? then s1.(answers := s.answers[r := (key, Served(hit.value))])
      else if key in s.inflight then s1.(waiting := s.waiting[r := Waiter(key, s.inflight[key])])
      else s1.(tasks := s.tasks[newTask := Task(key, Queued, false)],
               inflight := s.inflight[key := newTask],
               waiting := s.waiting[r := Waiter(key, newTask)])
    case Cancel(r) => s.(waiting := s.waiting - {r})   // asyncio.shield: the task goes on
    case Answer(r) =>
      s.(waiting := s.waiting - {r},
         answers := s.answers[r := (s.waiting[r].key, s.tasks[s.waiting[r].task].phase.result)])
    case Grant(t) => s.(tasks := Phased(s, t, Granted), free := s.free - 1)
    case Resume(t) => s.(tasks := Phased(s, t, Holding))
    case TimeOut(t) =>
      s.(tasks := Phased(s, t, Done(Busy)), free := if s.tasks[t].phase.Granted? then s.free + 1 else s.free)
    case Recheck(t, now) =>
      var address := s.tasks[t].key.address;
      var hit := AssetsCache.Hit(s.cache, address, now);
      var s1 := s.(cache := AssetsCache.Got(s.cache, address, now));
      if hit.Some? then s1.(tasks := Phased(s, t, Done(Served(hit.value))), free := s.free + 1)
      else s1.(tasks := Phased(s, t, Fetching))
    case Return(t, payload, now) =>
      var address := s.tasks[t].key.address;
      s.(cache := AssetsCache.Put(s.cache, address, now, payload),
         produced := s.produced + {(address, payload)},
         tasks := Phased(s, t, Done(Served(payload))), free := s.free + 1)
    case Raise(t) => s.(tasks := Phased(s, t, Done(LookupFailed)), free := s.free + 1)
    case Callback(t) =>
      var key := s.tasks[t].key;
      s.(tasks := s.tasks[t := s.tasks[t].(finished := true)],
         inflight := if key in s.inflight && s.inflight[key] == t then s.inflight - {key} else s.inflight)
    case ClearCache => s.(cache := [])
  }

  const START: State := State([], SLOTS, map[], map[], map[], map[], {})

  ghost predicate Exec(states: seq<State>, steps: seq<Step>) {
    && |states| == |steps| + 1 && states[0] == START
    && forall i :: 0 <= i < |steps| ==> Enabled(states[i], steps[i]) && states[i + 1] == Apply(states[i], steps[i])
  }

  // ---------- Slots ----------

  predicate HoldsSlot(p: Phase) {
    p.Granted? || p.Holding? || p.Fetching?
  }

  ghost function Holders(s: State): set<int> {
    set t | t in s.tasks && HoldsSlot(s.tasks[t].phase)
  }

  ghost predicate SlotsConserved(s: State) {
    s.free >= 0 && s.free + |Holders(s)| == SLOTS
  }

  function SlotOf(p: Phase): int {
    if HoldsSlot(p) then 1 else 0
  }

  /** A task that moves to another phase takes or frees exactly the slots the phases differ by. */
  lemma MoveKeepsSlots(s: State, s': State, t: int, task: Task)
    requires SlotsConserved(s) && s'.tasks == s.tasks[t := task]
    requires s'.free == s.free + (if t in s.tasks then SlotOf(s.tasks[t].phase) else 0) - SlotOf(task.phase)
    requires s'.free >= 0
    ensures SlotsConserved(s')
  {
    assert Holders(s') == if HoldsSlot(task.phase) then Holders(s) + {t} else Holders(s) - {t};
    assert t in Holders(s) <==> t in s.tasks && HoldsSlot(s.tasks[t].phase);
  }

  lemma {:induction false} StepKeepsSlots(s: State, step: Step)
    requires Enabled(s, step) && SlotsConserved(s)
    ensures SlotsConserved(Apply(s, step))
  {
    var s' := Apply(s, step);
    match step
    case Request(_, _, _, newTask) =>
      if newTask in s'.tasks {
        MoveKeepsSlots(s, s', newTask, s'.tasks[newTask]);
      } else {
        assert Holders(s') == Holders(s);
      }
    case Grant(t) => MoveKeepsSlots(s, s', t, s'.tasks[t]);
    case Resume(t) => MoveKeepsSlots(s, s', t, s'.tasks[t]);
    case TimeOut(t) => MoveKeepsSlots(s, s', t, s'.tasks[t]);
    case Recheck(t, _) => MoveKeepsSlots(s, s', t, s'.tasks[t]);
    case Return(t, _, _) => MoveKeepsSlots(s, s', t, s'.tasks[t]);
    case Raise(t) => MoveKeepsSlots(s, s', t, s'.tasks[t]);
    case Callback(t) => MoveKeepsSlots(s, s', t, s'.tasks[t]);
    case Cancel(_) => assert Holders(s') == Holders(s);
    case Answer(_) => assert Holders(s') == Holders(s);
    case ClearCache => assert Holders(s') == Holders(s);
  }

  // ---------- Single flight ----------

  /** Every unfinished task owns its key's entry, and every entry belongs to a task whose callback is still to run. */
  ghost predicate SingleFlight(s: State) {
    && (forall t :: t in s.tasks && !s.tasks[t].phase.Done? ==>
          && !s.tasks[t].finished
          && s.tasks[t].key in s.inflight && s.inflight[s.tasks[t].key] == t)
    && (forall k :: k in s.inflight ==>
          s.inflight[k] in s.tasks && s.tasks[s.inflight[k]].key == k && !s.tasks[s.inflight[k]].finished)
    && (forall r :: r in s.waiting ==>
          s.waiting[r].task in s.tasks && s.tasks[s.waiting[r].task].key == s.waiting[r].key)
  }

  /** Moving an unfinished task to another phase leaves its entry alone. */
  lemma MoveKeepsSingleFlight(s: State, s': State, t: int, phase: Phase)
    requires SingleFlight(s) && t in s.tasks && !s.tasks[t].phase.Done?
    requires s'.tasks == Phased(s, t, phase) && s'.inflight == s.inflight && s'.waiting == s.waiting
    ensures SingleFlight(s')
  {
  }

  lemma RequestKeepsSingleFlight(s: State, step: Step)
    requires step.Request? && Enabled(s, step) && SingleFlight(s)
    ensures SingleFlight(Apply(s, step))
  {
    var hit := AssetsCache.Hit(s.cache, step.key.address, step.now);
    if hit.None? && step.key !in s.inflight {
      NewTaskKeepsSingleFlight(s, Apply(s, step), step.key, step.newTask, step.request);
    }
  }

  lemma NewTaskKeepsSingleFlight(s: State, s': State, key: FlightKey, t: int, r: int)
    requires SingleFlight(s) && t !in s.tasks && key !in s.inflight
    requires s'.tasks == s.tasks[t := Task(key, Queued, false)] && s'.inflight == s.inflight[key := t]
    requires s'.waiting == s.waiting[r := Waiter(key, t)]
    ensures SingleFlight(s')
  {
    forall u | u in s'.tasks && !s'.tasks[u].phase.Done?
      ensures !s'.tasks[u].finished && s'.tasks[u].key in s'.inflight && s'.inflight[s'.tasks[u].key] == u
    {
      assert u == t || s'.tasks[u] == s.tasks[u];
    }
    forall q | q in s'.waiting
      ensures s'.waiting[q].task in s'.tasks && s'.tasks[s'.waiting[q].task].key == s'.waiting[q].key
    {
      assert q == r || s'.waiting[q] == s.waiting[q];
    }
  }

  lemma CallbackKeepsSingleFlight(s: State, t: int)
    requires Enabled(s, Callback(t)) && SingleFlight(s)
    ensures SingleFlight(Apply(s, Callback(t)))
  {
    var s' := Apply(s, Callback(t));
    assert forall u :: u in s.tasks ==>
      u in s'.tasks && s'.tasks[u].key == s.tasks[u].key && s'.tasks[u].phase == s.tasks[u].phase;
  }

  lemma {:induction false} StepKeepsSingleFlight(s: State, step: Step)
    requires Enabled(s, step) && SingleFlight(s)
    ensures SingleFlight(Apply(s, step))
  {
    var s' := Apply(s, step);
    match step
    case Request(_, _, _, _) => RequestKeepsSingleFlight(s, step);
    case Callback(t) => CallbackKeepsSingleFlight(s, t);
    case Grant(t) => MoveKeepsSingleFlight(s, s', t, Granted);
    case Resume(t) => MoveKeepsSingleFlight(s, s', t, Holding);
    case TimeOut(t) => MoveKeepsSingleFlight(s, s', t, Done(Busy));
    case Recheck(t, _) => MoveKeepsSingleFlight(s, s', t, s'.tasks[t].phase);
    case Return(t, payload, _) => MoveKeepsSingleFlight(s, s', t, Done(Served(payload)));
    case Raise(t) => MoveKeepsSingleFlight(s, s', t, Done(LookupFailed));
    case Cancel(_) =>
    case Answer(_) =>
    case ClearCache =>
  }

  /** A done-callback removes its own task's entry if it is still there, and no other entry. */
  lemma {:induction false} CallbackRemovesOnlyItsOwn(s: State, t: int)
    requires Enabled(s, Callback(t))
    ensures var after := Apply(s, Callback(t)).inflight;
            && (forall k :: k in s.inflight && s.inflight[k] != t ==> k in after && after[k] == s.inflight[k])
            && (forall k :: k in after ==> k in s.inflight && after[k] == s.inflight[k])
            && (SingleFlight(s) ==> forall k :: k in after ==> after[k] != t)
  {
  }

  // ---------- Where payloads come from ----------

  ghost predicate Genuine(s: State) {
    && (forall e :: e in s.cache ==> (e.key, e.payload) in s.produced)
    && (forall t :: t in s.tasks && s.tasks[t].phase.Done? && s.tasks[t].phase.result.Served? ==>
          (s.tasks[t].key.address, s.tasks[t].phase.result.payload) in s.produced)
    && (forall r :: r in s.answers && s.answers[r].1.Served? ==>
          (s.answers[r].0.address, s.answers[r].1.payload) in s.produced)
  }

  lemma GotIsOld(es: seq<AssetsCache.Entry>, key: string, now: real)
    ensures forall e :: e in AssetsCache.Got(es, key, now) ==> e in es
    ensures AssetsCache.Hit(es, key, now).Some? ==>
              exists e :: e in es && e.key == key && e.payload == AssetsCache.Hit(es, key, now).value
  {
    var found := AssetsCache.EntryOf(es, key);
    assert forall e :: e in AssetsCache.Without(es, key) ==> e in es;
  }

  lemma PutIsOldOrNew(es: seq<AssetsCache.Entry>, key: string, now: real, payload: Payload)
    ensures forall e :: e in AssetsCache.Put(es, key, now, payload) ==>
              e in es || e == AssetsCache.Entry(key, now, payload)
  {
    assert forall e :: e in AssetsCache.Without(es, key) ==> e in es;
  }

  lemma {:induction false} StepKeepsGenuine(s: State, step: Step)
    requires Enabled(s, step) && Genuine(s) && SingleFlight(s)
    ensures Genuine(Apply(s, step))
  {
    match step
    case Request(_, _, _, _) => RequestKeepsGenuine(s, step);
    case Recheck(t, now) => GotIsOld(s.cache, s.tasks[t].key.address, now);
    case Return(t, payload, now) => PutIsOldOrNew(s.cache, s.tasks[t].key.address, now, payload);
    case _ =>
  }

  lemma RequestKeepsGenuine(s: State, step: Step)
    requires step.Request? && Enabled(s, step) && Genuine(s)
    ensures Genuine(Apply(s, step))
  {
    GotIsOld(s.cache, step.key.address, step.now);
  }

  // ---------- Theorems about every run ----------

  ghost predicate Inv(s: State) {
    SlotsConserved(s) && SingleFlight(s) && Genuine(s)
  }

  lemma {:induction false} ExecKeepsInv(states: seq<State>, steps: seq<Step>)
    requires Exec(states, steps)
    ensures forall i :: 0 <= i < |states| ==> Inv(states[i])
  {
    assert Holders(START) == {};
    for n := 0 to |steps|
      invariant forall i :: 0 <= i <= n ==> Inv(states[i])
    {
      StepKeepsSlots(states[n], steps[n]);
      StepKeepsSingleFlight(states[n], steps[n]);
      StepKeepsGenuine(states[n], steps[n]);
    }
  }

  predicate Unfinished(s: State, t: int) {
    t in s.tasks && !s.tasks[t].phase.Done?
  }

  ghost function Upstream(s: State): set<int> {
    set t | t in s.tasks && s.tasks[t].phase.Fetching?
  }

  /** At any moment: one unfinished task per key, free and held slots adding to four, at most four upstream lookups. */
  lemma {:induction false} LookupsAreBounded(states: seq<State>, steps: seq<Step>, i: nat)
    requires Exec(states, steps) && i < |states|
    ensures var s := states[i];
            && (forall t, u :: Unfinished(s, t) && Unfinished(s, u) && s.tasks[t].key == s.tasks[u].key ==> t == u)
            && s.free >= 0 && s.free + |Holders(s)| == 4
            && |Upstream(s)| <= 4
  {
    ExecKeepsInv(states, steps);
    assert forall t :: t in Upstream(states[i]) ==> t in Holders(states[i]);
    AssetsCache.SubsetSize(Upstream(states[i]), Holders(states[i]));
  }

  /** Whatever a request is served was returned by an upstream lookup for the very address it asked for. */
  lemma {:induction false} AnswersAreGenuine(states: seq<State>, steps: seq<Step>, i: nat, r: int)
    requires Exec(states, steps) && i < |states|
    requires r in states[i].answers && states[i].answers[r].1.Served?
    ensures exists n, t, now :: 0 <= n < i
              && steps[n] == Return(t, states[i].answers[r].1.payload, now)
              && t in states[n].tasks && states[n].tasks[t].key.address == states[i].answers[r].0.address
  {
    ExecKeepsInv(states, steps);
    var address, payload := states[i].answers[r].0.address, states[i].answers[r].1.payload;
    var n := WasProduced(states, steps, i, address, payload);
    var step := steps[n];
    assert step == Return(step.task, payload, step.now);
  }

  lemma {:induction false} WasProduced(states: seq<State>, steps: seq<Step>, i: nat, address: string, payload: Payload)
    returns (n: nat)
    requires Exec(states, steps) && i < |states| && (address, payload) in states[i].produced
    ensures n < i && steps[n].Return? && steps[n].payload == payload
    ensures steps[n].task in states[n].tasks && states[n].tasks[steps[n].task].key.address == address
  {
    n := i - 1;
    if (address, payload) in states[n].produced {
      n := WasProduced(states, steps, n, address, payload);
    }
  }

  // ---------- How old an answer can be ----------

  /** Step `n` is an upstream lookup for the address returning the payload. */
  ghost predicate ReturnsAt(states: seq<State>, steps: seq<Step>, n: int, address: string, payload: Payload)
    requires Exec(states, steps)
  {
    && 0 <= n < |steps| && steps[n].Return? && steps[n].payload == payload
    && states[n].tasks[steps[n].task].key.address == address
  }

  /** The step looks the address up in the cache, at the clock reading `now`. */
  ghost predicate LooksUp(s: State, step: Step, address: string, now: real) {
    || (step.Request? && step.key.address == address && step.now == now)
    || (step.Recheck? && step.task in s.tasks && s.tasks[step.task].key.address == address && step.now == now)
  }

  lemma {:induction false} CachedSince(states: seq<State>, steps: seq<Step>, i: nat, e: AssetsCache.Entry)
    returns (n: nat)
    requires Exec(states, steps) && i < |states| && e in states[i].cache
    ensures n < i && ReturnsAt(states, steps, n, e.key, e.payload) && steps[n].now == e.at
  {
    n := i - 1;
    var s, step := states[n], steps[n];
    if e in s.cache {
      n := CachedSince(states, steps, n, e);
    } else {
      match step
      case Request(_, key, now, _) => GotIsOld(s.cache, key.address, now);
      case Recheck(t, now) => GotIsOld(s.cache, s.tasks[t].key.address, now);
      case Return(t, payload, now) => PutIsOldOrNew(s.cache, s.tasks[t].key.address, now, payload);
      case _ =>
    }
  }

  /** A hit was stored less than 30 seconds before the sample that served it. */
  lemma HitIsRecent(states: seq<State>, steps: seq<Step>, m: nat, address: string, now: real) returns (n: nat)
    requires Exec(states, steps) && m < |states| && AssetsCache.Hit(states[m].cache, address, now).Some?
    ensures n < m && ReturnsAt(states, steps, n, address, AssetsCache.Hit(states[m].cache, address, now).value)
    ensures now - steps[n].now < AssetsCache.TTL_SECONDS
  {
    var e := AssetsCache.EntryOf(states[m].cache, address).value;
    n := CachedSince(states, steps, m, e);
  }

  predicate DoneAt(s: State, t: int) {
    t in s.tasks && s.tasks[t].phase.Done?
  }

  /** One step finishes a task with a payload only by returning it or by finding it in the cache. */
  ghost predicate FinishesWith(s: State, step: Step, t: int, payload: Payload)
    requires t in s.tasks
  {
    || (step.Return? && step.task == t && step.payload == payload)
    || (step.Recheck? && step.task == t
        && AssetsCache.Hit(s.cache, s.tasks[t].key.address, step.now) == Some(payload))
  }

  lemma StepFinishes(s: State, step: Step, t: int)
    requires Enabled(s, step) && DoneAt(Apply(s, step), t) && Apply(s, step).tasks[t].phase.result.Served?
    ensures t in s.tasks && s.tasks[t].key == Apply(s, step).tasks[t].key
    ensures DoneAt(s, t) ==> s.tasks[t].phase == Apply(s, step).tasks[t].phase
    ensures !DoneAt(s, t) ==> FinishesWith(s, step, t, Apply(s, step).tasks[t].phase.result.payload)
  {
  }

  /** A task finished no earlier than a state in which it was not finished. */
  lemma {:induction false} FinishedAt(states: seq<State>, steps: seq<Step>, a: nat, i: nat, t: int) returns (d: nat)
    requires Exec(states, steps) && a <= i < |states|
    requires !DoneAt(states[a], t) && DoneAt(states[i], t) && states[i].tasks[t].phase.result.Served?
    ensures a <= d < i && t in states[d].tasks && states[d].tasks[t].key == states[i].tasks[t].key
    ensures FinishesWith(states[d], steps[d], t, states[i].tasks[t].phase.result.payload)
  {
    d := i - 1;
    assert Enabled(states[d], steps[d]) && states[i] == Apply(states[d], steps[d]);
    StepFinishes(states[d], steps[d], t);
    if DoneAt(states[d], t) {
      d := FinishedAt(states, steps, a, d, t);
    }
  }

  lemma {:induction false} AnsweredAt(states: seq<State>, steps: seq<Step>, i: nat, r: int) returns (j: nat)
    requires Exec(states, steps) && i < |states| && r in states[i].answers
    ensures j < i && r !in states[j].answers && r in states[j + 1].answers
    ensures states[j + 1].answers[r] == states[i].answers[r]
  {
    j := i - 1;
    if r in states[j].answers {
      AnswersStay(states, steps, j, r);
      j := AnsweredAt(states, steps, j, r);
    }
  }

  /** A request waits or has its answer, never both, and an answer never changes. */
  lemma {:induction false} AnswersStay(states: seq<State>, steps: seq<Step>, i: nat, r: int)
    requires Exec(states, steps) && i < |states|
    ensures !(r in states[i].waiting && r in states[i].answers)
    ensures r in states[i].answers && i < |steps| ==>
              r in states[i + 1].answers && states[i + 1].answers[r] == states[i].answers[r]
  {
    if i > 0 {
      AnswersStay(states, steps, i - 1, r);
      StepAnswers(states[i - 1], steps[i - 1], r);
    }
    if i < |steps| {
      StepAnswers(states[i], steps[i], r);
    }
  }

  lemma StepAnswers(s: State, step: Step, r: int)
    requires Enabled(s, step) && !(r in s.waiting && r in s.answers)
    ensures var s' := Apply(s, step);
            && !(r in s'.waiting && r in s'.answers)
            && (r in s.answers ==> r in s'.answers && s'.answers[r] == s.answers[r])
  {
  }

  lemma StepArrives(s: State, step: Step, r: int)
    requires Enabled(s, step) && r in Apply(s, step).waiting
    ensures r in s.waiting ==> s.waiting[r] == Apply(s, step).waiting[r]
    ensures r !in s.waiting ==>
              step.Request? && step.request == r && step.key == Apply(s, step).waiting[r].key
  {
  }

  /** The request's arrival, and what it joined. */
  lemma {:induction false} ArrivedAt(states: seq<State>, steps: seq<Step>, j: nat, r: int) returns (a: nat)
    requires Exec(states, steps) && j < |states| && r in states[j].waiting
    ensures a < j && steps[a].Request? && steps[a].request == r
    ensures r in states[a + 1].waiting && states[a + 1].waiting[r] == states[j].waiting[r]
    ensures steps[a].key == states[j].waiting[r].key
  {
    a := j - 1;
    assert Enabled(states[a], steps[a]) && states[j] == Apply(states[a], steps[a]);
    StepArrives(states[a], steps[a], r);
    if r in states[a].waiting {
      a := ArrivedAt(states, steps, a, r);
    }
  }

  /** The request of step `a` joined a task that had already finished but whose done-callback had not run. */
  predicate JoinsFinished(s: State, step: Step) {
    && step.Request? && step.key in s.inflight && DoneAt(s, s.inflight[step.key])
    && !s.tasks[s.inflight[step.key]].finished
  }

  // ---------- Why the cache may have lost a finished task's payload ----------

  function CallOf(s: State, step: Step): seq<AssetsCache.Call>
    requires Enabled(s, step)
  {
    match step
    case Request(_, key, now, _) => [AssetsCache.Lookup(key.address, now)]
    case Recheck(t, now) => [AssetsCache.Lookup(s.tasks[t].key.address, now)]
    case Return(t, payload, now) => [AssetsCache.Save(s.tasks[t].key.address, now, payload)]
    case ClearCache => [AssetsCache.Clear]
    case _ => []
  }

  /** The cache calls of the first `i` steps. */
  ghost function Calls(states: seq<State>, steps: seq<Step>, i: nat): seq<AssetsCache.Call>
    requires Exec(states, steps) && i <= |steps|
  {
    if i == 0 then [] else Calls(states, steps, i - 1) + CallOf(states[i - 1], steps[i - 1])
  }

  lemma {:induction false} StepReplays(s: State, step: Step, trace: seq<AssetsCache.Call>)
    requires Enabled(s, step) && s.cache == AssetsCache.Replay(trace)
    ensures Apply(s, step).cache == AssetsCache.Replay(trace + CallOf(s, step))
  {
    match step
    case Request(_, key, now, _) => AssetsCache.ReplaySnoc(trace, AssetsCache.Lookup(key.address, now));
    case Recheck(t, now) => AssetsCache.ReplaySnoc(trace, AssetsCache.Lookup(s.tasks[t].key.address, now));
    case Return(t, payload, now) =>
      AssetsCache.ReplaySnoc(trace, AssetsCache.Save(s.tasks[t].key.address, now, payload));
    case ClearCache => AssetsCache.ReplaySnoc(trace, AssetsCache.Clear);
    case _ => assert trace + CallOf(s, step) == trace;
  }

  lemma {:induction false} CacheIsReplay(states: seq<State>, steps: seq<Step>, i: nat)
    requires Exec(states, steps) && i <= |steps|
    ensures states[i].cache == AssetsCache.Replay(Calls(states, steps, i))
  {
    if i > 0 {
      CacheIsReplay(states, steps, i - 1);
      StepReplays(states[i - 1], steps[i - 1], Calls(states, steps, i - 1));
    }
  }

  /** What the cache last stored under the address, as `AssetsCache.LastStored` reads it off the calls so far. */
  ghost function LastEntry(states: seq<State>, steps: seq<Step>, i: nat, address: string): Option<AssetsCache.Entry>
    requires Exec(states, steps) && i <= |steps|
  {
    AssetsCache.LastStored(Calls(states, steps, i), address)
  }

  /** Step `m` looks the address up and finds its last entry expired. */
  ghost predicate ExpiredAt(states: seq<State>, steps: seq<Step>, m: int, address: string)
    requires Exec(states, steps)
  {
    && 0 <= m < |steps| && (steps[m].Request? || steps[m].Recheck?)
    && LooksUp(states[m], steps[m], address, steps[m].now)
    && LastEntry(states, steps, m, address).Some?
    && !AssetsCache.Fresh(LastEntry(states, steps, m, address).value, steps[m].now)
  }

  /** Between steps `d` and `a` the cache was cleared, or a lookup, that of step `a` included, found the
      address's last entry expired, or 256 other keys were touched since the address last was. */
  ghost predicate Lost(states: seq<State>, steps: seq<Step>, d: int, a: int, address: string)
    requires Exec(states, steps) && 0 <= d < a < |steps|
  {
    || (exists c :: d < c < a && steps[c].ClearCache?)
    || (exists m :: d < m <= a && ExpiredAt(states, steps, m, address))
    || |AssetsCache.TouchedSince(Calls(states, steps, a), address)| >= 256
  }

  lemma LastEntryAfter(states: seq<State>, steps: seq<Step>, i: nat, address: string)
    requires Exec(states, steps) && i < |steps|
    ensures var call := CallOf(states[i], steps[i]);
            LastEntry(states, steps, i + 1, address)
            == if call == [] then LastEntry(states, steps, i, address)
               else AssetsCache.LastAfter(LastEntry(states, steps, i, address), call[0], address)
  {
    var trace, call := Calls(states, steps, i), CallOf(states[i], steps[i]);
    if call == [] {
      assert trace + call == trace;
    } else {
      assert (trace + call)[..|trace|] == trace && (trace + call)[|trace|] == call[0];
    }
  }

  lemma StepForgets(states: seq<State>, steps: seq<Step>, i: nat, address: string)
    requires Exec(states, steps) && i < |steps|
    requires LastEntry(states, steps, i, address).Some? && LastEntry(states, steps, i + 1, address).None?
    ensures steps[i].ClearCache? || ExpiredAt(states, steps, i, address)
  {
    LastEntryAfter(states, steps, i, address);
  }

  lemma {:induction false} DropsOut<T>(xs: seq<Option<T>>, i: nat, j: nat) returns (m: nat)
    requires i < j < |xs| && xs[i].Some? && xs[j].None?
    ensures i <= m < j && xs[m].Some? && xs[m + 1].None?
  {
    m := j - 1;
    if xs[m].None? {
      m := DropsOut(xs, i, m);
    }
  }

  lemma {:induction false} LastEntries(states: seq<State>, steps: seq<Step>, address: string)
    returns (last: seq<Option<AssetsCache.Entry>>)
    requires Exec(states, steps)
    ensures |last| == |states| && forall i :: 0 <= i < |last| ==> last[i] == LastEntry(states, steps, i, address)
  {
    last := seq(|steps| + 1, i requires 0 <= i <= |steps| => LastEntry(states, steps, i, address));
  }

  /** Once stored, an address's last entry is forgotten only by a clear or by a lookup that finds it expired. */
  lemma {:induction false} Forgotten(states: seq<State>, steps: seq<Step>, d: nat, a: nat, address: string)
    returns (m: nat)
    requires Exec(states, steps) && d < a <= |steps|
    requires LastEntry(states, steps, d + 1, address).Some? && LastEntry(states, steps, a, address).None?
    ensures d < m < a && (steps[m].ClearCache? || ExpiredAt(states, steps, m, address))
  {
    ghost var last := LastEntries(states, steps, address);
    m := DropsOut(last, d + 1, a);
    StepForgets(states, steps, m, address);
  }

  lemma {:induction false} MissedIsLost(states: seq<State>, steps: seq<Step>, d: nat, a: nat)
    requires Exec(states, steps) && d < a < |steps| && steps[a].Request?
    requires LastEntry(states, steps, d + 1, steps[a].key.address).Some?
    requires AssetsCache.Hit(states[a].cache, steps[a].key.address, steps[a].now).None?
    ensures Lost(states, steps, d, a, steps[a].key.address)
  {
    var address, now := steps[a].key.address, steps[a].now;
    var last := LastEntry(states, steps, a, address);
    CacheIsReplay(states, steps, a);
    if last.None? {
      var m := Forgotten(states, steps, d, a, address);
    } else if AssetsCache.Fresh(last.value, now) {
      AssetsCache.LastStoredMissed(Calls(states, steps, a), address, now);
    } else {
      assert ExpiredAt(states, steps, a, address);
    }
  }

  /** The step that finishes a task with a payload leaves an entry for its address. */
  lemma FinishedIsStored(states: seq<State>, steps: seq<Step>, d: nat, t: int, payload: Payload)
    requires Exec(states, steps) && d < |steps| && t in states[d].tasks
    requires FinishesWith(states[d], steps[d], t, payload)
    ensures LastEntry(states, steps, d + 1, states[d].tasks[t].key.address).Some?
  {
    var address := states[d].tasks[t].key.address;
    LastEntryAfter(states, steps, d, address);
    CacheIsReplay(states, steps, d);
    if steps[d].Recheck? {
      AssetsCache.HitIsLastStore(Calls(states, steps, d), address, steps[d].now);
    }
  }

  lemma DoneStays(states: seq<State>, steps: seq<Step>, a: nat, j: nat, t: int)
    requires Exec(states, steps) && a <= j < |states| && DoneAt(states[a], t)
    ensures DoneAt(states[j], t) && states[j].tasks[t].phase == states[a].tasks[t].phase
  {
    forall k | 0 <= k < |steps|
      ensures KeepsDone(states[k], states[k + 1], t)
    {
      StepKeepsDone(states[k], steps[k], states[k + 1], t);
    }
    KeptDone(states, a, j, t);
  }

  ghost predicate KeepsDone(s: State, s': State, t: int) {
    DoneAt(s, t) ==> DoneAt(s', t) && s'.tasks[t].phase == s.tasks[t].phase
  }

  lemma StepKeepsDone(s: State, step: Step, s': State, t: int)
    requires Enabled(s, step) && s' == Apply(s, step)
    ensures KeepsDone(s, s', t)
  {
  }

  lemma {:induction false} KeptDone(states: seq<State>, a: nat, j: nat, t: int)
    requires a <= j < |states| && DoneAt(states[a], t)
    requires forall k :: 0 <= k < |states| - 1 ==> KeepsDone(states[k], states[k + 1], t)
    ensures DoneAt(states[j], t) && states[j].tasks[t].phase == states[a].tasks[t].phase
  {
    if a < j {
      KeptDone(states, a, j - 1, t);
      assert KeepsDone(states[j - 1], states[j], t);
    }
  }

  /** The request of step `a` joined a task that step `d` had finished with the payload, but whose done-callback
      had not run; the payload was no older than 30 seconds then, and the cache has lost it since. */
  ghost predicate JoinedLost(states: seq<State>, steps: seq<Step>, a: int, n: int, d: int, payload: Payload)
    requires Exec(states, steps) && 0 <= a < |steps| && 0 <= n < |steps|
  {
    && JoinsFinished(states[a], steps[a])
    && 0 <= d < a
    && var t := states[a].inflight[steps[a].key];
       && t in states[d].tasks && FinishesWith(states[d], steps[d], t, payload)
       && (if steps[d].Return? then n == d
           else n < d && steps[n].Return? && steps[d].now - steps[n].now < AssetsCache.TTL_SECONDS)
       && Lost(states, steps, d, a, steps[a].key.address)
  }

  /** A served payload was returned by step `n`: after the request arrived, or less than 30 seconds before a
      clock sample taken for it since; the one other way is to join a task between its end, at step `m`, and
      its callback, and only after the cache has lost what that task returned. */
  lemma {:induction false} AnswerAge(states: seq<State>, steps: seq<Step>, i: nat, r: int)
    returns (a: nat, n: nat, m: nat, now: real)
    requires Exec(states, steps) && i < |states|
    requires r in states[i].answers && states[i].answers[r].1.Served?
    ensures a < i && steps[a].Request? && steps[a].request == r && steps[a].key == states[i].answers[r].0
    ensures n < i && ReturnsAt(states, steps, n, states[i].answers[r].0.address, states[i].answers[r].1.payload)
    ensures || a <= n
            || (a <= m < i && LooksUp(states[m], steps[m], states[i].answers[r].0.address, now)
                && now - steps[n].now < 30.0)
            || JoinedLost(states, steps, a, n, m, states[i].answers[r].1.payload)
  {
    var key, payload := states[i].answers[r].0, states[i].answers[r].1.payload;
    var j := AnsweredAt(states, steps, i, r);
    if steps[j].Request? {
      a, m, now := j, j, steps[j].now;
      n := HitIsRecent(states, steps, j, key.address, now);
    } else {
      a := ArrivedAt(states, steps, j, r);
      n, m, now := JoinedAge(states, steps, a, j, r);
    }
  }

  lemma JoinedAge(states: seq<State>, steps: seq<Step>, a: nat, j: nat, r: int) returns (n: nat, m: nat, now: real)
    requires Exec(states, steps) && a < j < |steps| && steps[j] == Answer(r)
    requires steps[a].Request? && steps[a].request == r && steps[a].key == states[j].waiting[r].key
    requires r in states[a + 1].waiting && states[a + 1].waiting[r] == states[j].waiting[r]
    requires r !in states[a].waiting
    requires states[j].tasks[states[j].waiting[r].task].phase.result.Served?
    ensures var key, payload := steps[a].key, states[j].tasks[states[j].waiting[r].task].phase.result.payload;
            && n < j && ReturnsAt(states, steps, n, key.address, payload)
            && (|| a <= n
                || (a <= m < j && LooksUp(states[m], steps[m], key.address, now)
                    && now - steps[n].now < AssetsCache.TTL_SECONDS)
                || JoinedLost(states, steps, a, n, m, payload))
  {
    ExecKeepsInv(states, steps);
    var t := states[j].waiting[r].task;
    var key := steps[a].key;
    m, now := a, steps[a].now;
    if DoneAt(states[a], t) {
      DoneStays(states, steps, a, j, t);
      n, m := JoinedFinished(states, steps, a, t);
    } else {
      var d := FinishedAt(states, steps, a, j, t);
      if steps[d].Return? {
        n := d;
      } else {
        m, now := d, steps[d].now;
        n := HitIsRecent(states, steps, d, key.address, now);
      }
    }
  }

  lemma JoinedFinished(states: seq<State>, steps: seq<Step>, a: nat, t: int) returns (n: nat, d: nat)
    requires Exec(states, steps) && a < |steps| && steps[a].Request?
    requires JoinsFinished(states[a], steps[a]) && t == states[a].inflight[steps[a].key]
    requires states[a].tasks[t].key == steps[a].key && states[a].tasks[t].phase.result.Served?
    requires AssetsCache.Hit(states[a].cache, steps[a].key.address, steps[a].now).None?
    ensures var payload := states[a].tasks[t].phase.result.payload;
            && n < a && ReturnsAt(states, steps, n, steps[a].key.address, payload)
            && JoinedLost(states, steps, a, n, d, payload)
  {
    var payload := states[a].tasks[t].phase.result.payload;
    d := FinishedAt(states, steps, 0, a, t);
    n := d;
    if steps[d].Recheck? {
      n := HitIsRecent(states, steps, d, steps[a].key.address, steps[d].now);
    }
    FinishedIsStored(states, steps, d, t, payload);
    MissedIsLost(states, steps, d, a);
  }

  // ---------- What every request is told ----------

  /** A request is answered at once exactly when the cache hits, with that payload; otherwise it waits on the task
      in flight for its key, or on a new one. */
  lemma RequestMeaning(s: State, step: Step)
    requires step.Request? && Enabled(s, step)
    ensures var hit, s' := AssetsCache.Hit(s.cache, step.key.address, step.now), Apply(s, step);
            && (hit.Some? ==>
                  && step.request in s'.answers && s'.answers[step.request] == (step.key, Served(hit.value))
                  && s'.waiting == s.waiting && s'.tasks == s.tasks && s'.inflight == s.inflight)
            && (hit.None? ==>
                  && step.request in s'.waiting && s'.answers == s.answers
                  && s'.waiting[step.request].key == step.key
                  && (if step.key in s.inflight
                      then s'.waiting[step.request].task == s.inflight[step.key] && s'.tasks == s.tasks
                      else s'.waiting[step.request].task == step.newTask
                           && s'.tasks == s.tasks[step.newTask := Task(step.key, Queued, false)]
                           && s'.inflight == s.inflight[step.key := step.newTask]))
  {
  }

  /** The steps that end a task. */
  predicate Ends(s: State, step: Step, t: int) {
    && t in s.tasks
    && ((step.Return? && step.task == t) || (step.Raise? && step.task == t) || (step.TimeOut? && step.task == t)
        || (step.Recheck? && step.task == t && AssetsCache.Hit(s.cache, s.tasks[t].key.address, step.now).Some?))
  }

  /** How a task ends: with what the upstream lookup returned, or what the second look at the cache found, or
      busy after a timeout, or failed; and a returned payload is the newest entry of the cache. */
  lemma EndMeaning(s: State, step: Step, t: int)
    requires Enabled(s, step) && Ends(s, step, t)
    ensures DoneAt(Apply(s, step), t)
    ensures var result := Apply(s, step).tasks[t].phase.result;
            && (step.Return? ==> result == Served(step.payload))
            && (step.Recheck? ==> result == Served(AssetsCache.Hit(s.cache, s.tasks[t].key.address, step.now).value))
            && (step.TimeOut? ==> result == Busy)
            && (step.Raise? ==> result == LookupFailed)
    ensures step.Return? ==>
              var cache := Apply(s, step).cache;
              cache != [] && cache[|cache| - 1] == AssetsCache.Entry(s.tasks[t].key.address, step.now, step.payload)
  {
  }

  /** The second look at the cache decides between ending the task and calling upstream. */
  lemma RecheckMeaning(s: State, step: Step)
    requires step.Recheck? && Enabled(s, step)
    ensures DoneAt(Apply(s, step), step.task)
            <==> AssetsCache.Hit(s.cache, s.tasks[step.task].key.address, step.now).Some?
    ensures !DoneAt(Apply(s, step), step.task) ==> Apply(s, step).tasks[step.task].phase == Fetching
  {
  }

  /** In every run: a request that waits on a task is told exactly what the step that ended the task decided. */
  lemma {:induction false} EndDecidesAnswer(states: seq<State>, steps: seq<Step>, d: nat, j: nat, r: int)
    requires Exec(states, steps) && d < j < |steps| && steps[j] == Answer(r)
    requires r in states[j].waiting && Ends(states[d], steps[d], states[j].waiting[r].task)
    ensures r in states[j + 1].answers && states[j + 1].answers[r].0 == states[j].waiting[r].key
    ensures var result := states[j + 1].answers[r].1;
            && (steps[d].Return? ==> result == Served(steps[d].payload))
            && (steps[d].Recheck? ==>
                  var address := states[d].tasks[steps[d].task].key.address;
                  result == Served(AssetsCache.Hit(states[d].cache, address, steps[d].now).value))
            && (steps[d].TimeOut? ==> result == Busy)
            && (steps[d].Raise? ==> result == LookupFailed)
  {
    var t := states[j].waiting[r].task;
    assert Enabled(states[d], steps[d]) && states[d + 1] == Apply(states[d], steps[d]);
    assert Enabled(states[j], steps[j]) && states[j + 1] == Apply(states[j], steps[j]);
    EndMeaning(states[d], steps[d], t);
    DoneStays(states, steps, d + 1, j, t);
  }

  /** And some step did end it: no request is answered before its task is over. */
  lemma {:induction false} AnsweredAfterEnd(states: seq<State>, steps: seq<Step>, j: nat, r: int) returns (d: nat)
    requires Exec(states, steps) && j < |steps| && steps[j] == Answer(r)
    ensures r in states[j].waiting && d < j && Ends(states[d], steps[d], states[j].waiting[r].task)
  {
    assert Enabled(states[j], steps[j]);
    d := EndOf(states, steps, j, states[j].waiting[r].task);
  }

  lemma {:induction false} EndOf(states: seq<State>, steps: seq<Step>, i: nat, t: int) returns (d: nat)
    requires Exec(states, steps) && i < |states| && DoneAt(states[i], t)
    ensures d < i && Ends(states[d], steps[d], t)
  {
    d := i - 1;
    assert Enabled(states[d], steps[d]) && states[i] == Apply(states[d], steps[d]);
    if DoneAt(states[d], t) {
      d := EndOf(states, steps, d, t);
    } else {
      OnlyEndsFinish(states[d], steps[d], t);
    }
  }

  lemma OnlyEndsFinish(s: State, step: Step, t: int)
    requires Enabled(s, step) && !DoneAt(s, t) && DoneAt(Apply(s, step), t)
    ensures Ends(s, step, t)
  {
  }
}
