/** Concurrent runs of the limiter: any number of requests, each passing through a
    read-locked lookup, possibly a write-locked insert, and a locked take, interleaved in
    any order and possibly with configuration updates.
 */
module RateLimiterRuns {
  import opened TokenBucket
  import opened RateLimiter
  import opened LimitService

  type Thread = nat

  /** Where a request stands inside getBucket(...).take(). */
  datatype Stage =
    | Idle
    | Missed(consumer: string, snapshot: Config)
    | Holding(consumer: string, id: nat)

  datatype Entry = Entry(consumer: string, at: int, allowed: bool)

  /** `heap` holds every bucket ever created; `buckets` says which one the map names. */
  datatype State = State(
    cfg: Config,
    buckets: map<string, nat>,
    heap: seq<Cell>,
    stages: map<Thread, Stage>,
    clock: int,
    log: seq<Entry>)

  datatype Step =
    | Lookup(thread: Thread, consumer: string)
    | Insert(thread: Thread)
    | Take(thread: Thread)
    | Update(config: Config)

  datatype Event = Event(at: int, step: Step)

  function Init(config: Config, t0: int): State {
    State(Normalised(config), map[], [], map[], t0, [])
  }

  function StageOf(s: State, t: Thread): Stage {
    if t in s.stages then s.stages[t] else Idle
  }

  predicate Enabled(s: State, e: Event) {
    && s.clock <= e.at
    && match e.step
       case Lookup(t, _) => StageOf(s, t).Idle?
       case Insert(t) => StageOf(s, t).Missed?
       case Take(t) => StageOf(s, t).Holding? && StageOf(s, t).id < |s.heap|
       case Update(_) => true
  }

  function Next(s: State, e: Event): State
    requires Enabled(s, e)
  {
    var s' := s.(clock := e.at);
    match e.step
    case Lookup(t, c) =>
      s'.(stages := s.stages[t := if c in s.buckets then Holding(c, s.buckets[c]) else Missed(c, s.cfg)])
    case Insert(t) =>
      var Missed(c, snapshot) := s.stages[t];
      if c in s.buckets then
        s'.(stages := s.stages[t := Holding(c, s.buckets[c])])
      else
        var limits := LimitsFor(snapshot, c);
        s'.(heap := s.heap + [Cell(limits, Full(limits, e.at))],
            buckets := s.buckets[c := |s.heap|],
            stages := s.stages[t := Holding(c, |s.heap|)])
    case Take(t) =>
      var Holding(c, id) := s.stages[t];
      var (level, d) := TakeStep(s.heap[id].limits, s.heap[id].level, e.at);
      s'.(heap := s.heap[id := s.heap[id].(level := level)],
          stages := s.stages[t := Idle],
          log := s.log + [Entry(c, e.at, d.Allowed?)])
    case Update(config) =>
      s'.(cfg := Normalised(config), buckets := map[])
  }

  /** s leads to s' through the events of `run`, in order. */
  predicate Runs(s: State, run: seq<Event>, s': State)
    decreases |run|
  {
    if run == [] then s' == s
    else Enabled(s, run[0]) && Runs(Next(s, run[0]), run[1..], s')
  }

  predicate NoUpdate(run: seq<Event>) {
    forall k :: 0 <= k < |run| ==> !run[k].step.Update?
  }

  // ----- What one consumer sees -----

  function TimesOf(log: seq<Entry>, c: string): seq<int> {
    if log == [] then []
    else
      var last := log[|log| - 1];
      TimesOf(log[..|log| - 1], c) + (if last.consumer == c then [last.at] else [])
  }

  function DecisionsOf(log: seq<Entry>, c: string): (ds: seq<bool>)
    ensures |ds| == |TimesOf(log, c)|
  {
    if log == [] then []
    else
      var last := log[|log| - 1];
      DecisionsOf(log[..|log| - 1], c) + (if last.consumer == c then [last.allowed] else [])
  }

  /** The entries of one consumer. */
  function Own(log: seq<Entry>, c: string): (own: seq<Entry>)
    ensures forall e :: e in own <==> e in log && e.consumer == c
  {
    if log == [] then []
    else
      var last := log[|log| - 1];
      Own(log[..|log| - 1], c) + (if last.consumer == c then [last] else [])
  }

  /** Times and decisions are those of exactly the consumer's own entries, in order. */
  lemma {:induction false} OwnEntries(log: seq<Entry>, c: string)
    ensures |TimesOf(log, c)| == |Own(log, c)|
    ensures forall k :: 0 <= k < |Own(log, c)| ==>
              TimesOf(log, c)[k] == Own(log, c)[k].at && DecisionsOf(log, c)[k] == Own(log, c)[k].allowed
  {
    if log != [] {
      OwnEntries(log[..|log| - 1], c);
    }
  }

  predicate LogInOrder(s: State, t0: int) {
    && t0 <= s.clock
    && (forall i :: 0 <= i < |s.log| ==> t0 <= s.log[i].at <= s.clock)
    && (forall i, j :: 0 <= i <= j < |s.log| ==> s.log[i].at <= s.log[j].at)
  }

  lemma {:induction false} RunKeepsOrder(s: State, run: seq<Event>, s': State, t0: int)
    requires LogInOrder(s, t0) && Runs(s, run, s')
    ensures LogInOrder(s', t0)
    decreases |run|
  {
    if run != [] {
      RunKeepsOrder(Next(s, run[0]), run[1..], s', t0);
    }
  }

  lemma {:induction false} TimesInOrder(log: seq<Entry>, c: string, t0: int)
    requires forall i :: 0 <= i < |log| ==> t0 <= log[i].at
    requires forall i, j :: 0 <= i <= j < |log| ==> log[i].at <= log[j].at
    ensures Sorted(TimesOf(log, c)) && forall i :: 0 <= i < |TimesOf(log, c)| ==> t0 <= TimesOf(log, c)[i] <= log[|log| - 1].at
  {
    if log != [] {
      TimesInOrder(log[..|log| - 1], c, t0);
    }
  }

  /** The bucket with limits m that would have made consumer c's takes alone since t0. */
  function Eager(m: Limits, t0: int, log: seq<Entry>, c: string): Level {
    After(m, Full(m, t0), TimesOf(log, c))
  }

  /** From `clock` on, the two levels can no longer be told apart. */
  ghost predicate SameFrom(l: Limits, a: Level, b: Level, clock: int) {
    forall now :: clock <= now ==> Refilled(l, a, now) == Refilled(l, b, now)
  }

  /** A bucket that will never admit a take again. */
  predicate Dry(cell: Cell) {
    cell.limits.burst == 0 || (cell.limits.rpm == 0 && cell.level.units < UNIT)
  }

  predicate NoneAdmitted(ds: seq<bool>) {
    forall i :: 0 <= i < |ds| ==> !ds[i]
  }

  /** A request whose lookup missed carries limits that serve as the current ones do; a request
      that holds a bucket holds its consumer's own, or a dry one of a consumer that gets nothing. */
  predicate StageOk(s: State, stage: Stage) {
    match stage
    case Idle => true
    case Missed(c, snapshot) => Alike(LimitsFor(s.cfg, c), LimitsFor(snapshot, c))
    case Holding(c, id) =>
      && id < |s.heap|
      && if LimitsFor(s.cfg, c).burst >= 1 then c in s.buckets && s.buckets[c] == id
         else Dry(s.heap[id]) && forall d :: d in s.buckets && s.buckets[d] == id ==> d == c
  }

  /** What the bucket the map names for c, of limits m, has done. */
  ghost predicate ServedBy(s: State, t0: int, c: string, cell: Cell) {
    var m := cell.limits;
    && DecisionsOf(s.log, c) == Admitted(m, Full(m, t0), TimesOf(s.log, c))
    && SameFrom(m, cell.level, Eager(m, t0, s.log, c), s.clock)
  }

  ghost predicate ConsumerOk(s: State, t0: int, c: string) {
    var l := LimitsFor(s.cfg, c);
    && (c in s.buckets ==> s.buckets[c] < |s.heap| && Alike(l, s.heap[s.buckets[c]].limits))
    && (if l.burst == 0 then NoneAdmitted(DecisionsOf(s.log, c))
        else if c in s.buckets then ServedBy(s, t0, c, s.heap[s.buckets[c]])
        else TimesOf(s.log, c) == [])
  }

  predicate OwnBuckets(s: State) {
    forall c, d :: c in s.buckets && d in s.buckets && c != d ==> s.buckets[c] != s.buckets[d]
  }

  ghost predicate Inv(s: State, t0: int) {
    && t0 <= s.clock
    && OwnBuckets(s)
    && (forall t :: t in s.stages ==> StageOk(s, s.stages[t]))
    && (forall c :: ConsumerOk(s, t0, c))
  }

  lemma TakeKeepsSame(l: Limits, a: Level, b: Level, clock: int, now: int)
    requires SameFrom(l, a, b, clock) && clock <= now
    ensures TakeStep(l, a, now) == TakeStep(l, b, now)
  {
    assert Refilled(l, a, now) == Refilled(l, b, now);
  }

  /** A take on a dry bucket is denied and leaves it dry. */
  lemma DryStays(cell: Cell, now: int)
    requires Dry(cell)
    ensures TakeStep(cell.limits, cell.level, now).1.Denied?
    ensures Dry(cell.(level := TakeStep(cell.limits, cell.level, now).0))
  {
    if cell.limits.rpm == 0 {
      assert cell.limits.rpm * (now - cell.level.at) == 0;
    }
  }

  lemma ConsumerLookup(s: State, e: Event, t0: int, c: string)
    requires ConsumerOk(s, t0, c) && Enabled(s, e) && e.step.Lookup?
    ensures ConsumerOk(Next(s, e), t0, c)
  {
  }

  lemma FreshBucketSame(l: Limits, t0: int, clock: int)
    requires t0 <= clock
    ensures SameFrom(l, Full(l, clock), Full(l, t0), clock)
  {
    forall now | clock <= now ensures Refilled(l, Full(l, clock), now) == Refilled(l, Full(l, t0), now) {
      FullStaysFull(l, clock, t0, now);
    }
  }

  lemma ConsumerInsert(s: State, e: Event, t0: int, c: string)
    requires t0 <= s.clock && ConsumerOk(s, t0, c) && Enabled(s, e) && e.step.Insert?
    requires StageOk(s, s.stages[e.step.thread])
    ensures ConsumerOk(Next(s, e), t0, c)
  {
    var consumer, snapshot := s.stages[e.step.thread].consumer, s.stages[e.step.thread].snapshot;
    if consumer == c && c !in s.buckets {
      FreshBucketSame(LimitsFor(snapshot, c), t0, e.at);
    }
  }

  lemma OneMoreEntry(log: seq<Entry>, entry: Entry, c: string)
    ensures TimesOf(log + [entry], c) == TimesOf(log, c) + (if entry.consumer == c then [entry.at] else [])
    ensures DecisionsOf(log + [entry], c) == DecisionsOf(log, c) + (if entry.consumer == c then [entry.allowed] else [])
  {
    assert (log + [entry])[..|log|] == log;
  }

  lemma ConsumerTake(s: State, e: Event, t0: int, c: string)
    requires ConsumerOk(s, t0, c) && Enabled(s, e) && e.step.Take?
    requires StageOk(s, s.stages[e.step.thread]) && s.stages[e.step.thread].consumer == c
    ensures ConsumerOk(Next(s, e), t0, c)
  {
    hide TakeStep, Alike;
    var s' := Next(s, e);
    var id := s.stages[e.step.thread].id;
    var cell := s.heap[id];
    var m := cell.limits;
    var times := TimesOf(s.log, c);
    OneMoreEntry(s.log, s'.log[|s.log|], c);
    if LimitsFor(s.cfg, c).burst == 0 {
      DryStays(cell, e.at);
    } else {
      assert (times + [e.at])[..|times|] == times;
      TakeKeepsSame(m, cell.level, Eager(m, t0, s.log, c), s.clock, e.at);
    }
  }

  lemma OtherTake(s: State, e: Event, t0: int, c: string)
    requires ConsumerOk(s, t0, c) && OwnBuckets(s) && Enabled(s, e) && e.step.Take?
    requires StageOk(s, s.stages[e.step.thread]) && s.stages[e.step.thread].consumer != c
    ensures ConsumerOk(Next(s, e), t0, c)
  {
    hide TakeStep, Alike;
    var s' := Next(s, e);
    OneMoreEntry(s.log, s'.log[|s.log|], c);
    assert DecisionsOf(s'.log, c) == DecisionsOf(s.log, c) && TimesOf(s'.log, c) == TimesOf(s.log, c);
    assert c in s.buckets ==> s.buckets[c] != s.stages[e.step.thread].id;
  }

  lemma ConsumerStep(s: State, e: Event, t0: int, c: string)
    requires Inv(s, t0) && Enabled(s, e) && !e.step.Update?
    ensures ConsumerOk(Next(s, e), t0, c)
  {
    hide ConsumerOk, StageOk;
    match e.step {
      case Lookup(t, d) =>
        ConsumerLookup(s, e, t0, c);
      case Insert(t) =>
        ConsumerInsert(s, e, t0, c);
      case Take(t) =>
        if s.stages[t].consumer == c {
          ConsumerTake(s, e, t0, c);
        } else {
          OtherTake(s, e, t0, c);
        }
    }
  }

  lemma LookedUpStage(s: State, c: string, t0: int)
    requires Inv(s, t0)
    ensures StageOk(s, if c in s.buckets then Holding(c, s.buckets[c]) else Missed(c, s.cfg))
  {
    hide SameFrom, Admitted;
    assert ConsumerOk(s, t0, c);
  }

  lemma InsertedStage(s: State, e: Event, t0: int)
    requires Inv(s, t0) && Enabled(s, e) && e.step.Insert?
    ensures StageOk(Next(s, e), Next(s, e).stages[e.step.thread])
  {
    hide SameFrom, Admitted;
    var stage := s.stages[e.step.thread];
    assert StageOk(s, stage);
    LookedUpStage(s, stage.consumer, t0);
    forall d | d in s.buckets ensures s.buckets[d] < |s.heap| {
      assert ConsumerOk(s, t0, d);
    }
  }

  lemma StepKeepsInv(s: State, e: Event, t0: int)
    requires Inv(s, t0) && Enabled(s, e) && !e.step.Update?
    ensures Inv(Next(s, e), t0)
  {
    var s' := Next(s, e);
    forall c ensures ConsumerOk(s', t0, c) {
      ConsumerStep(s, e, t0, c);
    }
    forall c | c in s.buckets ensures s.buckets[c] < |s.heap| {
      assert ConsumerOk(s, t0, c);
    }
    forall t | t in s'.stages ensures StageOk(s', s'.stages[t]) {
      if t == e.step.thread {
        if e.step.Lookup? {
          LookedUpStage(s, e.step.consumer, t0);
        } else if e.step.Insert? {
          InsertedStage(s, e, t0);
        }
      }
    }
  }

  lemma {:induction false} RunKeepsInv(s: State, run: seq<Event>, s': State, t0: int)
    requires Inv(s, t0) && Runs(s, run, s') && NoUpdate(run)
    ensures Inv(s', t0) && s'.cfg == s.cfg
    decreases |run|
  {
    if run != [] {
      StepKeepsInv(s, run[0], t0);
      RunKeepsInv(Next(s, run[0]), run[1..], s', t0);
    }
  }

  /** What the invariant says of one consumer's decisions. */
  lemma ServedAlike(s: State, t0: int, c: string)
    requires Inv(s, t0) && LogInOrder(s, t0)
    ensures
      var l := LimitsFor(s.cfg, c);
      DecisionsOf(s.log, c) == Admitted(l, Full(l, t0), TimesOf(s.log, c))
  {
    var l := LimitsFor(s.cfg, c);
    assert ConsumerOk(s, t0, c);
    TimesInOrder(s.log, c, t0);
    if l.burst == 0 {
      BurstZeroDenies(l, t0, TimesOf(s.log, c));
    } else if c in s.buckets {
      AlikeServesSame(l, s.heap[s.buckets[c]].limits, t0, TimesOf(s.log, c));
    }
  }

  /** The lazy, shared map refines eager, private buckets: whatever the interleaving, the
      decisions a consumer gets are those of one bucket of its own limits that was full
      from the start, at the instants of that consumer's own takes. */
  lemma LazyMapRefinesEagerBuckets(config: Config, t0: int, run: seq<Event>, s: State, c: string)
    requires Runs(Init(config, t0), run, s) && NoUpdate(run)
    ensures
      var l := LimitsFor(Normalised(config), c);
      DecisionsOf(s.log, c) == Admitted(l, Full(l, t0), TimesOf(s.log, c))
  {
    RunKeepsInv(Init(config, t0), run, s, t0);
    RunKeepsOrder(Init(config, t0), run, s, t0);
    ServedAlike(s, t0, c);
  }

  /** In the configuration's own words: a consumer it lists is served as by one bucket of exactly
      the listed limits, any other as by one of the default limits, full from the start. */
  lemma ConfiguredLimitsServe(config: Config, t0: int, run: seq<Event>, s: State, c: string)
    requires Runs(Init(config, t0), run, s) && NoUpdate(run)
    ensures
      c in config.consumers ==>
        var m := config.consumers[c];
        DecisionsOf(s.log, c) == Admitted(m, Full(m, t0), TimesOf(s.log, c))
    ensures
      c !in config.consumers ==>
        var m := Limits(if config.defaultRpm == 0 then 60 else config.defaultRpm,
                        if config.defaultBurst == 0 then 10 else config.defaultBurst);
        DecisionsOf(s.log, c) == Admitted(m, Full(m, t0), TimesOf(s.log, c))
  {
    LimitsAsConfigured(config, c);
    LazyMapRefinesEagerBuckets(config, t0, run, s, c);
  }

  /** No consumer can influence another: equal instants, equal decisions. */
  lemma ConsumersAreIndependent(config: Config, t0: int, run: seq<Event>, run': seq<Event>, s: State, s': State, c: string)
    requires Runs(Init(config, t0), run, s) && NoUpdate(run)
    requires Runs(Init(config, t0), run', s') && NoUpdate(run')
    requires TimesOf(s.log, c) == TimesOf(s'.log, c)
    ensures DecisionsOf(s.log, c) == DecisionsOf(s'.log, c)
  {
    LazyMapRefinesEagerBuckets(config, t0, run, s, c);
    LazyMapRefinesEagerBuckets(config, t0, run', s', c);
  }

  /** Whatever the interleaving, a consumer is admitted in any stretch of time at most its
      burst plus what the stretch accrues, and is refused nothing exactly when its own
      requests conform. */
  lemma ConsumerGuarantee(config: Config, t0: int, run: seq<Event>, s: State, c: string, from: int, to: int)
    requires Runs(Init(config, t0), run, s) && NoUpdate(run) && from <= to
    ensures
      var l := LimitsFor(Normalised(config), c);
      var times, ds := TimesOf(s.log, c), DecisionsOf(s.log, c);
      && Cost(CountBetween(times, ds, from, to, |times|)) <= Allowance(l, from, to)
      && (All(ds) <==> Conforming(l, times))
  {
    var l := LimitsFor(Normalised(config), c);
    LazyMapRefinesEagerBuckets(config, t0, run, s, c);
    RunKeepsOrder(Init(config, t0), run, s, t0);
    TimesInOrder(s.log, c, t0);
    AdmissionsInTimeWindow(l, t0, TimesOf(s.log, c), from, to);
    NothingDeniedIffConforming(l, t0, TimesOf(s.log, c));
  }
}
