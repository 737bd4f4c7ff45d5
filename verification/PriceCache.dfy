/** The double-checked price cache under real thread interleavings: one thread reads or writes one variable per step. */
module PriceCache {
  import opened Collections

  const TTL_SECONDS := 300.0

  /** A fetched price with the time its fetch began and the stamp its thread records for it. */
  datatype Quote = Quote(price: real, fetchedAt: real, stampedAt: real)

  datatype Reply = Returned(quote: Quote, now: real, checked: bool) | Raised

  /** `now` is the thread's own `monotonic()` sample. The last six hold `_PRICE_CACHE_LOCK`, except `Finished`. */
  datatype Pc =
    | Begin
    | Sampled(now: real)
    | SawPrice(now: real, seen: Quote)    // the cached price was not None
    | SawFresh(now: real, seen: Quote)    // the stamp was fresh; about to return without the lock
    | Waiting
    | Locked
    | Resampled(now: real)
    | Fetching(now: real, startedAt: real)
    | Writing(now: real, quote: Quote)
    | Stamping(now: real, quote: Quote)
    | Finished(reply: Reply)

  /** The ETH function reads the price again when it returns it; the per-coin function returns its first read. */
  datatype ReadOrder = PriceLast | PriceFirst

  datatype State = State(
    order: ReadOrder, clock: real, price: Option<Quote>, stamp: Option<real>, lock: Option<int>, threads: map<int, Pc>)

  datatype Step =
    | Tick(clock: real)
    | Call(thread: int)
    | Sample(thread: int)
    | ReadPrice(thread: int)
    | ReadStamp(thread: int)
    | ReturnUnlocked(thread: int)
    | Acquire(thread: int)
    | Resample(thread: int)
    | Recheck(thread: int)
    | FetchOk(thread: int, price: real)
    | FetchFails(thread: int)
    | WritePrice(thread: int)
    | WriteStamp(thread: int)

  /** `_cache_is_fresh` */
  predicate CacheIsFresh(updatedAt: Option<real>, now: real) {
    updatedAt.Some? && now - updatedAt.value < TTL_SECONDS
  }

  predicate Enabled(s: State, step: Step) {
    match step
    case Tick(clock) => clock >= s.clock
    case Call(t) => t !in s.threads
    case Sample(t) => t in s.threads && s.threads[t].Begin?
    case ReadPrice(t) => t in s.threads && s.threads[t].Sampled?
    case ReadStamp(t) => t in s.threads && s.threads[t].SawPrice?
    case ReturnUnlocked(t) => t in s.threads && s.threads[t].SawFresh? && s.price.Some?
    case Acquire(t) => t in s.threads && s.threads[t].Waiting? && s.lock.None?
    case Resample(t) => t in s.threads && s.threads[t].Locked?
    case Recheck(t) => t in s.threads && s.threads[t].Resampled?
    case FetchOk(t, price) => t in s.threads && s.threads[t].Fetching? && price > 0.0
    case FetchFails(t) => t in s.threads && s.threads[t].Fetching?
    case WritePrice(t) => t in s.threads && s.threads[t].Writing?
    case WriteStamp(t) => t in s.threads && s.threads[t].Stamping?
  }

  function Goto(s: State, t: int, pc: Pc): State {
    s.(threads := s.threads[t := pc])
  }

  function Apply(s: State, step: Step): State
    requires Enabled(s, step)
  {
    match step
    case Tick(clock) => s.(clock := clock)
    case Call(t) => Goto(s, t, Begin)
    case Sample(t) => Goto(s, t, Sampled(s.clock))
    case ReadPrice(t) =>
      Goto(s, t, if s.price.Some? then SawPrice(s.threads[t].now, s.price.value) else Waiting)
    case ReadStamp(t) =>
      var pc := s.threads[t];
      Goto(s, t, if CacheIsFresh(s.stamp, pc.now) then SawFresh(pc.now, pc.seen) else Waiting)
    case ReturnUnlocked(t) =>
      var pc := s.threads[t];
      Goto(s, t, Finished(Returned(if s.order.PriceLast? then s.price.value else pc.seen, pc.now, true)))
    case Acquire(t) => Goto(s, t, Locked).(lock := Some(t))
    case Resample(t) => Goto(s, t, Resampled(s.clock))
    case Recheck(t) =>
      var now := s.threads[t].now;
      if s.price.Some? && CacheIsFresh(s.stamp, now)
      then Goto(s, t, Finished(Returned(s.price.value, now, true))).(lock := None)
      else Goto(s, t, Fetching(now, s.clock))
    case FetchOk(t, price) =>
      var pc := s.threads[t];
      Goto(s, t, Writing(pc.now, Quote(price, pc.startedAt, pc.now)))
    case FetchFails(t) =>
      var now := s.threads[t].now;
      Goto(s, t, Finished(if s.price.Some? then Returned(s.price.value, now, false) else Raised)).(lock := None)
    case WritePrice(t) =>
      var pc := s.threads[t];
      Goto(s, t, Stamping(pc.now, pc.quote)).(price := Some(pc.quote))
    case WriteStamp(t) =>
      var pc := s.threads[t];
      Goto(s, t, Finished(Returned(pc.quote, pc.now, true))).(stamp := Some(pc.now), lock := None)
  }

  predicate HoldsLock(pc: Pc) {
    pc.Locked? || pc.Resampled? || pc.Fetching? || pc.Writing? || pc.Stamping?
  }

  /** One thread's part of the invariant. */
  ghost predicate ThreadOk(s: State, t: int)
    requires t in s.threads
  {
    && (HoldsLock(s.threads[t]) ==> s.lock == Some(t))
    && match s.threads[t]
       case SawPrice(now, _) => s.price.Some?
       case SawFresh(now, _) => s.price.Some? && (s.order.PriceLast? ==> now - s.price.value.fetchedAt < TTL_SECONDS)
       case Resampled(now) => now <= s.clock
       case Fetching(now, startedAt) =>
         now <= startedAt <= s.clock && (s.price.Some? ==> s.price.value.fetchedAt <= startedAt)
       case Writing(now, quote) =>
         && quote.stampedAt == now <= quote.fetchedAt <= s.clock
         && (s.price.Some? ==> s.price.value.fetchedAt <= quote.fetchedAt)
       case Stamping(now, quote) => quote.stampedAt == now <= quote.fetchedAt && s.price == Some(quote)
       case Finished(reply) =>
         s.order.PriceLast? && reply.Returned? && reply.checked ==> reply.now - reply.quote.fetchedAt < TTL_SECONDS
       case _ => true
  }

  /** The stamp recorded for the cached price, or about to be by the thread that has just written it. */
  function StampOfPrice(s: State): Option<real> {
    if s.lock.Some? && s.lock.value in s.threads && s.threads[s.lock.value].Stamping?
    then Some(s.threads[s.lock.value].now)
    else s.stamp
  }

  ghost predicate Inv(s: State) {
    && (s.price.Some? ==> StampOfPrice(s) == Some(s.price.value.stampedAt))
    && (s.stamp.Some? ==> s.price.Some? && s.stamp.value <= s.price.value.fetchedAt)
    && (s.price.Some? ==> s.price.value.fetchedAt <= s.clock)
    && forall t :: t in s.threads ==> ThreadOk(s, t)
  }

  ghost predicate Initial(s: State) {
    s.price.None? && s.stamp.None? && s.lock.None? && s.threads == map[]
  }

  lemma {:induction false} StepKeepsInv(s: State, step: Step)
    requires Inv(s) && Enabled(s, step)
    ensures Inv(Apply(s, step))
  {
    var s' := Apply(s, step);
    if !step.Tick? && !step.Call? {
      assert ThreadOk(s, step.thread);
    }
    forall t | t in s'.threads ensures ThreadOk(s', t) {
      if step.Tick? || t != step.thread {
        OthersStayOk(s, step, t);
      } else {
        MoverIsOk(s, step);
      }
    }
  }

  lemma OthersStayOk(s: State, step: Step, t: int)
    requires Inv(s) && Enabled(s, step) && t in s.threads && (step.Tick? || t != step.thread)
    ensures ThreadOk(Apply(s, step), t)
  {
    assert ThreadOk(s, t);
    if !step.Tick? && !step.Call? {
      assert ThreadOk(s, step.thread);
    }
  }

  lemma MoverIsOk(s: State, step: Step)
    requires Inv(s) && Enabled(s, step) && !step.Tick?
    ensures ThreadOk(Apply(s, step), step.thread)
  {
    if !step.Call? {
      assert ThreadOk(s, step.thread);
    }
  }

  // ---------- What each step decides ----------

  /** Without the lock a price is taken for fresh exactly when it is there and was stamped less than 300 seconds
      before the caller's sample; then it is returned, and otherwise the caller goes for the lock. */
  lemma UnlockedMeaning(s: State, step: Step)
    requires Enabled(s, step) && (step.ReadPrice? || step.ReadStamp? || step.ReturnUnlocked?)
    ensures var pc, pc' := s.threads[step.thread], Apply(s, step).threads[step.thread];
            && (step.ReadPrice? ==>
                  pc' == if s.price.Some? then SawPrice(pc.now, s.price.value) else Waiting)
            && (step.ReadStamp? ==>
                  pc' == if s.stamp.Some? && pc.now - s.stamp.value < 300.0 then SawFresh(pc.now, pc.seen) else Waiting)
            && (step.ReturnUnlocked? ==>
                  && pc'.Finished? && pc'.reply.Returned? && pc'.reply.now == pc.now
                  && pc'.reply.quote == if s.order == PriceLast then s.price.value else pc.seen)
            && Apply(s, step).price == s.price && Apply(s, step).stamp == s.stamp
  {
  }

  /** Under the lock the same test decides between returning the cached price and fetching. A fetched price is stored,
      then stamped with the sample, and returned; a failed fetch returns the old price if there is one, and leaves
      price and stamp alone. */
  lemma LockedMeaning(s: State, step: Step)
    requires Enabled(s, step)
    requires step.Recheck? || step.FetchOk? || step.FetchFails? || step.WritePrice? || step.WriteStamp?
    ensures var pc, s' := s.threads[step.thread], Apply(s, step);
            var pc' := s'.threads[step.thread];
            && (step.Recheck? ==>
                  if s.price.Some? && s.stamp.Some? && pc.now - s.stamp.value < 300.0
                  then pc' == Finished(Returned(s.price.value, pc.now, true)) && s'.lock == None
                  else pc' == Fetching(pc.now, s.clock) && s'.lock == s.lock)
            && (step.FetchOk? ==>
                  pc'.Writing? && pc'.quote.price == step.price && pc'.quote.fetchedAt == pc.startedAt)
            && (step.WritePrice? ==> s'.price == Some(pc.quote) && pc' == Stamping(pc.now, pc.quote))
            && (step.WriteStamp? ==>
                  s'.stamp == Some(pc.now) && s'.lock == None && pc' == Finished(Returned(pc.quote, pc.now, true)))
            && (step.FetchFails? ==>
                  && s'.lock == None
                  && pc' == Finished(if s.price.Some? then Returned(s.price.value, pc.now, false) else Raised))
            && (!step.WritePrice? ==> s'.price == s.price) && (!step.WriteStamp? ==> s'.stamp == s.stamp)
  {
  }

  ghost predicate Exec(states: seq<State>, steps: seq<Step>) {
    && |states| == |steps| + 1 && Initial(states[0])
    && forall i :: 0 <= i < |steps| ==> Enabled(states[i], steps[i]) && states[i + 1] == Apply(states[i], steps[i])
  }

  lemma {:induction false} ExecKeepsInv(states: seq<State>, steps: seq<Step>)
    requires Exec(states, steps)
    ensures forall i :: 0 <= i < |states| ==> Inv(states[i]) && states[i].order == states[0].order
  {
    for n := 0 to |steps|
      invariant forall i :: 0 <= i <= n ==> Inv(states[i]) && states[i].order == states[0].order
    {
      StepKeepsInv(states[n], steps[n]);
    }
  }

  /** The cached price's fetch never began before its recorded stamp, and fetches never overlap. */
  lemma {:induction false} StampNeverFlatters(states: seq<State>, steps: seq<Step>, i: nat)
    requires Exec(states, steps) && i < |states|
    ensures var s := states[i];
            && (s.stamp.Some? ==> s.price.Some? && s.stamp.value <= s.price.value.fetchedAt)
            && (forall t, u :: t in s.threads && u in s.threads && s.threads[t].Fetching? && s.threads[u].Fetching? ==>
                  t == u)
  {
    ExecKeepsInv(states, steps);
    forall t | t in states[i].threads ensures HoldsLock(states[i].threads[t]) ==> states[i].lock == Some(t) {
      assert ThreadOk(states[i], t);
    }
  }

  /** With the ETH function's read order, a price that passed the freshness check, with or without the lock,
      was fetched less than 300 seconds before the caller's own clock sample. */
  lemma {:induction false} CheckedPricesAreFresh(states: seq<State>, steps: seq<Step>, i: nat, t: int)
    requires Exec(states, steps) && i < |states| && states[0].order == PriceLast
    requires t in states[i].threads && states[i].threads[t].Finished?
    requires states[i].threads[t].reply.Returned? && states[i].threads[t].reply.checked
    ensures var reply := states[i].threads[t].reply;
            reply.now - reply.quote.fetchedAt < 300.0
  {
    ExecKeepsInv(states, steps);
    assert ThreadOk(states[i], t);
  }

  // ---------- The per-coin read order ----------

  /** In either order a lock-free read is fresh if no refresh came between reading the price and its stamp. */
  lemma {:induction false} UnrefreshedReadIsFresh(states: seq<State>, steps: seq<Step>, i: nat)
    requires Exec(states, steps) && i < |steps| && steps[i].ReadStamp?
    requires states[i + 1].threads[steps[i].thread].SawFresh?
    requires states[i].price == Some(states[i].threads[steps[i].thread].seen)
    ensures var pc := states[i + 1].threads[steps[i].thread];
            pc.now - pc.seen.fetchedAt < TTL_SECONDS
  {
    ExecKeepsInv(states, steps);
  }

  /** Past the lock-free check. */
  predicate Past(pc: Pc) {
    pc.Waiting? || HoldsLock(pc) || pc.Finished?
  }

  /** Still carrying what it read without the lock, or past that. */
  predicate Carries(pc: Pc, now: real, seen: Quote) {
    pc == SawPrice(now, seen) || pc == SawFresh(now, seen) || Past(pc)
  }

  lemma StepCarries(s: State, step: Step, t: int, now: real, seen: Quote)
    requires Enabled(s, step) && t in s.threads && Carries(s.threads[t], now, seen)
    ensures t in Apply(s, step).threads && Carries(Apply(s, step).threads[t], now, seen)
  {
  }

  /** In the per-coin order, a price returned without the lock is past the 300 seconds of its own stamp exactly
      when the cache had already expired, for the caller's sample, at the moment the price was read. */
  lemma {:induction false} ServedStaleIff(states: seq<State>, steps: seq<Step>, p: nat, q: nat, t: int)
    requires Exec(states, steps) && states[0].order == PriceFirst && p < q < |steps|
    requires steps[p] == ReadPrice(t) && steps[q] == ReturnUnlocked(t)
    ensures t in states[q + 1].threads && states[q + 1].threads[t].Finished?
    ensures var reply := states[q + 1].threads[t].reply;
            && reply.Returned?
            && (reply.now - reply.quote.stampedAt >= 300.0 <==> !CacheIsFresh(StampOfPrice(states[p]), reply.now))
            && (reply.now - reply.quote.fetchedAt >= 300.0 ==> !CacheIsFresh(StampOfPrice(states[p]), reply.now))
  {
    ExecKeepsInv(states, steps);
    assert Enabled(states[p], steps[p]) && states[p + 1] == Apply(states[p], steps[p]);
    assert Enabled(states[q], steps[q]) && states[q + 1] == Apply(states[q], steps[q]);
    var now := states[p].threads[t].now;
    var seen := if states[p].price.Some? then states[p].price.value else Quote(0.0, 0.0, 0.0);
    for n := p + 1 to q
      invariant t in states[n].threads && Carries(states[n].threads[t], now, seen)
      invariant states[p].price.None? ==> Past(states[n].threads[t])
    {
      StepCarries(states[n], steps[n], t, now, seen);
    }
    QuoteInOrder(states[p]);
  }

  lemma QuoteInOrder(s: State)
    requires Inv(s) && s.price.Some?
    ensures s.price.value.stampedAt <= s.price.value.fetchedAt
  {
    if s.lock.Some? && s.lock.value in s.threads && s.threads[s.lock.value].Stamping? {
      assert ThreadOk(s, s.lock.value);
    }
  }

  ghost predicate Reaches(from: State, to: State, steps: seq<Step>) {
    exists states :: Linked(states, from, to, steps)
  }

  ghost predicate Linked(states: seq<State>, from: State, to: State, steps: seq<Step>) {
    && |states| == |steps| + 1 && states[0] == from && states[|steps|] == to
    && forall i :: 0 <= i < |steps| ==> Enabled(states[i], steps[i]) && states[i + 1] == Apply(states[i], steps[i])
  }

  lemma Start(s: State) returns (steps: seq<Step>)
    ensures Reaches(s, s, steps)
  {
    steps := [];
    assert Linked([s], s, s, steps);
  }

  lemma Then(from: State, mid: State, steps: seq<Step>, step: Step) returns (steps': seq<Step>, to: State)
    requires Reaches(from, mid, steps) && Enabled(mid, step)
    ensures to == Apply(mid, step) && Reaches(from, to, steps')
  {
    var states :| Linked(states, from, mid, steps);
    steps', to := steps + [step], Apply(mid, step);
    assert Linked(states + [to], from, to, steps');
  }

  /** A caller that finds nothing fresh ends up waiting for the lock. */
  lemma ToTheLock(from: State, s: State, before: seq<Step>, t: int) returns (steps: seq<Step>, s': State)
    requires Reaches(from, s, before)
    requires t !in s.threads && !(s.price.Some? && CacheIsFresh(s.stamp, s.clock))
    ensures s' == Goto(s, t, Waiting) && Reaches(from, s', steps)
  {
    steps, s' := Then(from, s, before, Call(t));
    steps, s' := Then(from, s', steps, Sample(t));
    steps, s' := Then(from, s', steps, ReadPrice(t));
    if s.price.Some? {
      steps, s' := Then(from, s', steps, ReadStamp(t));
    }
    assert s'.threads == Goto(s, t, Waiting).threads;
  }

  function Refreshed(s: State, t: int, price: real): State {
    var quote := Quote(price, s.clock, s.clock);
    Goto(s, t, Finished(Returned(quote, s.clock, true))).(price := Some(quote), stamp := Some(s.clock))
  }

  /** Uncontended, it then fetches, stores and stamps a new price. */
  lemma Refresh(from: State, s: State, before: seq<Step>, t: int, price: real) returns (steps: seq<Step>)
    requires Reaches(from, s, before) && price > 0.0
    requires t !in s.threads && s.lock.None? && !(s.price.Some? && CacheIsFresh(s.stamp, s.clock))
    ensures Reaches(from, Refreshed(s, t, price), steps)
  {
    var s';
    steps, s' := ToTheLock(from, s, before, t);
    steps, s' := ToTheFetch(from, s, s', steps, t);
    steps, s' := Then(from, s', steps, FetchOk(t, price));
    steps, s' := Then(from, s', steps, WritePrice(t));
    steps, s' := Then(from, s', steps, WriteStamp(t));
    assert s'.threads == Refreshed(s, t, price).threads;
  }

  lemma ToTheFetch(from: State, s: State, waiting: State, before: seq<Step>, t: int) returns (steps: seq<Step>,
          s': State)
    requires Reaches(from, waiting, before) && waiting == Goto(s, t, Waiting)
    requires s.lock.None? && !(s.price.Some? && CacheIsFresh(s.stamp, s.clock))
    ensures s' == Goto(s, t, Fetching(s.clock, s.clock)).(lock := Some(t)) && Reaches(from, s', steps)
  {
    steps, s' := Then(from, waiting, before, Acquire(t));
    steps, s' := Then(from, s', steps, Resample(t));
    steps, s' := Then(from, s', steps, Recheck(t));
    assert s'.threads == Goto(s, t, Fetching(s.clock, s.clock)).threads;
  }

  /** Reading the price before the stamp, a caller can return a 300-second-old price as fresh. */
  lemma {:induction false} PriceFirstCanBeStale() returns (steps: seq<Step>, s: State)
    ensures Initial(State(PriceFirst, 0.0, None, None, None, map[]))
    ensures Reaches(State(PriceFirst, 0.0, None, None, None, map[]), s, steps)
    ensures 3 in s.threads && s.threads[3] == Finished(Returned(Quote(1.0, 0.0, 0.0), 300.0, true))
  {
    var start := State(PriceFirst, 0.0, None, None, None, map[]);
    steps := Start(start);
    steps := Refresh(start, start, steps, 1, 1.0);
    steps, s := Then(start, Refreshed(start, 1, 1.0), steps, Tick(300.0));
    steps, s := Then(start, s, steps, Call(3));
    steps, s := Then(start, s, steps, Sample(3));
    steps, s := Then(start, s, steps, ReadPrice(3));
    assert s.threads[3] == SawPrice(300.0, Quote(1.0, 0.0, 0.0));
    steps := Refresh(start, s, steps, 2, 2.0);
    s := Refreshed(s, 2, 2.0);
    steps, s := Then(start, s, steps, ReadStamp(3));
    steps, s := Then(start, s, steps, ReturnUnlocked(3));
  }
}
