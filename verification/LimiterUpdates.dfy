/** Configuration updates racing with requests: when the decisions after an update are those
    of the new limits alone.
 */
module LimiterUpdates {
  import opened TokenBucket
  import opened RateLimiter
  import opened LimitService
  import opened RateLimiterRuns

  // ----- What the map names after an update -----

  /** Every bucket the map names enforces the current configuration. */
  predicate Enforced(s: State) {
    forall c :: c in s.buckets ==>
      s.buckets[c] < |s.heap| && s.heap[s.buckets[c]].limits == LimitsFor(s.cfg, c)
  }

  /** Some request has missed under an older configuration that gives its consumer other limits. */
  predicate StalePending(s: State) {
    exists t :: t in s.stages && Stale(s, s.stages[t])
  }

  predicate Stale(s: State, stage: Stage) {
    stage.Missed? && LimitsFor(stage.snapshot, stage.consumer) != LimitsFor(s.cfg, stage.consumer)
  }

  lemma {:induction false} NotStaleStaysEnforced(s: State, run: seq<Event>, s': State)
    requires Enforced(s) && !StalePending(s) && Runs(s, run, s') && NoUpdate(run)
    ensures Enforced(s')
    decreases |run|
  {
    if run != [] {
      var m := Next(s, run[0]);
      forall t | t in m.stages ensures !Stale(m, m.stages[t]) {
        if t in s.stages {
          assert !Stale(s, s.stages[t]);
        }
      }
      if run[0].step.Insert? {
        assert !Stale(s, s.stages[run[0].step.thread]);
      }
      NotStaleStaysEnforced(m, run[1..], s');
    }
  }

  /** s leads to s' without a further update. */
  predicate Quiet(s: State, run: seq<Event>, s': State) {
    Runs(s, run, s') && NoUpdate(run)
  }

  /** A stale request alone can put the old limits back into the map. */
  lemma StaleInsert(u: State) returns (run: seq<Event>, s': State)
    requires StalePending(u) && u.buckets == map[]
    ensures Quiet(u, run, s') && !Enforced(s')
  {
    var t :| t in u.stages && Stale(u, u.stages[t]);
    run := [Event(u.clock, Insert(t))];
    s' := Next(u, run[0]);
    assert run[1..] == [];
    assert Runs(s', run[1..], s');
    var c := u.stages[t].consumer;
    assert c in s'.buckets && s'.heap[s'.buckets[c]].limits != LimitsFor(s'.cfg, c);
  }

  /** Just after an update the map will only ever name buckets of the new limits exactly when
      no request was caught between its lookup and its insert with limits the update changed. */
  lemma MapStaysCurrentIffNoneStale(s: State, e: Event)
    requires Enabled(s, e) && e.step.Update?
    ensures
      (forall run, s' :: Quiet(Next(s, e), run, s') ==> Enforced(s')) <==> !StalePending(Next(s, e))
  {
    var u := Next(s, e);
    if StalePending(u) {
      var run, s' := StaleInsert(u);
      assert Quiet(u, run, s');
    } else {
      forall run, s' | Quiet(u, run, s') ensures Enforced(s') {
        NotStaleStaysEnforced(u, run, s');
      }
    }
  }

  predicate Overtaken(config: Config, t0: int, run: seq<Event>, s: State) {
    Runs(Init(config, t0), run, s) && |run| == 3 && run[1].step.Update? && !Enforced(s)
  }

  /** Such a request is reachable: a lookup, then an update that halves the burst. */
  lemma UpdateCanBeOvertaken()
    ensures exists config, t0, run, s :: Overtaken(config, t0, run, s)
  {
    var before, after := Config(60, 10, map[]), Config(60, 5, map[]);
    var run := [Event(0, Lookup(1, "a")), Event(0, Update(after)), Event(0, Insert(1))];
    var s0 := Init(before, 0);
    var s1 := Next(s0, run[0]);
    var s2 := Next(s1, run[1]);
    var s3 := Next(s2, run[2]);
    assert run[1..] == [run[1], run[2]] && run[1..][1..] == [run[2]] && [run[2]][1..] == [];
    assert Runs(s2, [run[2]], s3);
    assert Runs(s1, run[1..], s3);
    assert Runs(s0, run, s3);
    assert s3.heap == [Cell(Limits(60, 10), Full(Limits(60, 10), 0))] && s3.buckets == map["a" := 0];
    assert !Enforced(s3);
    assert Overtaken(before, 0, run, s3);
  }

  // ----- What is decided after an update -----

  /** The entries logged since u. */
  function Since(u: State, s: State): seq<Entry>
    requires |u.log| <= |s.log|
  {
    s.log[|u.log|..]
  }

  /** Since u, consumer c got the decisions of one bucket of the current limits, full at u. */
  predicate ServedAfresh(u: State, s: State, c: string) {
    |u.log| <= |s.log| &&
    var l, log := LimitsFor(u.cfg, c), Since(u, s);
    DecisionsOf(log, c) == Admitted(l, Full(l, u.clock), TimesOf(log, c))
  }

  /** A request caught under way changes nothing: it is about to create a bucket that serves as
      the current limits do, or it holds a dry bucket of a consumer that gets nothing anyway. */
  predicate Harmless(u: State, stage: Stage) {
    match stage
    case Idle => true
    case Missed(c, snapshot) => Alike(LimitsFor(u.cfg, c), LimitsFor(snapshot, c))
    case Holding(c, id) => LimitsFor(u.cfg, c).burst == 0 && id < |u.heap| && Dry(u.heap[id])
  }

  predicate AllHarmless(u: State) {
    forall t :: t in u.stages ==> Harmless(u, u.stages[t])
  }

  /** What was logged before plays no part in a run. */
  lemma {:induction false} RunWithoutPast(s: State, run: seq<Event>, s': State, n: nat)
    requires Runs(s, run, s') && n <= |s.log|
    ensures |s.log| <= |s'.log|
    ensures Runs(s.(log := s.log[n..]), run, s'.(log := s'.log[n..]))
    decreases |run|
  {
    if run != [] {
      var m := Next(s, run[0]);
      RunWithoutPast(m, run[1..], s', n);
      assert m.(log := m.log[n..]) == Next(s.(log := s.log[n..]), run[0]);
    }
  }

  /** With nothing but harmless requests under way, every later decision is the new limits'. */
  lemma HarmlessServesAfresh(u: State, run: seq<Event>, s: State, c: string)
    requires u.buckets == map[] && AllHarmless(u) && Quiet(u, run, s)
    ensures ServedAfresh(u, s, c)
  {
    RunWithoutPast(u, run, s, |u.log|);
    var v, s' := u.(log := u.log[|u.log|..]), s.(log := s.log[|u.log|..]);
    assert v.log == [];
    forall t | t in v.stages ensures StageOk(v, v.stages[t]) {
      assert Harmless(u, u.stages[t]);
    }
    assert Inv(v, u.clock);
    RunKeepsInv(v, run, s', u.clock);
    RunKeepsOrder(v, run, s', u.clock);
    ServedAlike(s', u.clock, c);
  }

  // ----- Every other request can show -----

  /** What every reachable state satisfies. */
  predicate CellsOk(s: State) {
    && (forall i :: 0 <= i < |s.heap| ==> 0 <= s.heap[i].level.units && s.heap[i].level.at <= s.clock)
    && (forall c :: c in s.buckets ==> s.buckets[c] < |s.heap|)
    && (forall t :: t in s.stages && s.stages[t].Holding? ==> s.stages[t].id < |s.heap|)
  }

  lemma {:induction false} RunKeepsCells(s: State, run: seq<Event>, s': State)
    requires CellsOk(s) && Runs(s, run, s')
    ensures CellsOk(s')
    decreases |run|
  {
    if run != [] {
      hide TakeStep;
      var e := run[0];
      if e.step.Take? {
        var cell := s.heap[s.stages[e.step.thread].id];
      }
      RunKeepsCells(Next(s, e), run[1..], s');
    }
  }

  lemma {:induction false} RunOn(s: State, run: seq<Event>, s': State, e: Event)
    requires Quiet(s, run, s') && Enabled(s', e) && !e.step.Update?
    ensures Quiet(s, run + [e], Next(s', e))
    decreases |run|
  {
    if run == [] {
      assert ([] + [e])[0] == e && ([] + [e])[1..] == [];
      assert Runs(Next(s', e), [], Next(s', e));
      assert run + [e] == [e];
    } else {
      RunOn(Next(s, run[0]), run[1..], s', e);
      assert (run + [e])[1..] == run[1..] + [e];
    }
  }

  /** A request at t that finds a bucket in the map. */
  lemma OneCycle(u: State, run: seq<Event>, s: State, t: Thread, c: string, at: int) returns (run': seq<Event>, s': State)
    requires Quiet(u, run, s) && StageOf(s, t).Idle? && s.clock <= at
    requires c in s.buckets && s.buckets[c] < |s.heap|
    ensures Quiet(u, run', s')
    ensures
      var id := s.buckets[c];
      var (level, d) := TakeStep(s.heap[id].limits, s.heap[id].level, at);
      && s'.buckets == s.buckets && StageOf(s', t).Idle? && s'.clock == at
      && s'.heap == s.heap[id := s.heap[id].(level := level)]
      && s'.log == s.log + [Entry(c, at, d.Allowed?)]
  {
    hide TakeStep;
    var look, take := Event(at, Lookup(t, c)), Event(at, Take(t));
    var m := Next(s, look);
    RunOn(u, run, s, look);
    RunOn(u, run + [look], m, take);
    run', s' := run + [look] + [take], Next(m, take);
  }

  /** What thread t, holding c's mapped bucket, can make the log show from s on. */
  ghost predicate Drove(s: State, s': State, t: Thread, c: string, id: nat, ts: seq<int>) {
    && c in s'.buckets && s'.buckets[c] == id && id < |s.heap| == |s'.heap|
    && StageOf(s', t).Idle? && ts != [] && s'.clock == ts[|ts| - 1]
    && var cell := s.heap[id];
       && s'.heap[id] == Cell(cell.limits, After(cell.limits, cell.level, ts))
       && |s.log| <= |s'.log| && s'.log[..|s.log|] == s.log
       && TimesOf(s'.log[|s.log|..], c) == ts
       && DecisionsOf(s'.log[|s.log|..], c) == Admitted(cell.limits, cell.level, ts)
  }

  lemma {:induction false} Drive(u: State, run: seq<Event>, s: State, t: Thread, c: string, id: nat, ts: seq<int>)
    returns (run': seq<Event>, s': State)
    requires Quiet(u, run, s) && StageOf(s, t) == Holding(c, id)
    requires c in s.buckets && s.buckets[c] == id < |s.heap|
    requires ts != [] && InOrder(s.clock, ts)
    ensures Quiet(u, run', s') && Drove(s, s', t, c, id, ts)
    decreases |ts|
  {
    var n := |ts| - 1;
    if n == 0 {
      var take := Event(ts[0], Take(t));
      RunOn(u, run, s, take);
      run', s' := run + [take], Next(s, take);
    } else {
      var m: State;
      run', m := Drive(u, run, s, t, c, id, ts[..n]);
      run', s' := OneCycle(u, run', m, t, c, ts[n]);
      DroveMore(s, m, s', t, c, id, ts);
    }
  }

  lemma DroveMore(s: State, m: State, s': State, t: Thread, c: string, id: nat, ts: seq<int>)
    requires |ts| >= 2 && Drove(s, m, t, c, id, ts[..|ts| - 1])
    requires
      var at := ts[|ts| - 1];
      var (level, d) := TakeStep(m.heap[id].limits, m.heap[id].level, at);
      && s'.buckets == m.buckets && StageOf(s', t).Idle? && s'.clock == at
      && s'.heap == m.heap[id := m.heap[id].(level := level)]
      && s'.log == m.log + [Entry(c, at, d.Allowed?)]
    ensures Drove(s, s', t, c, id, ts)
  {
    hide TakeStep;
    var n := |ts| - 1;
    OneMoreEntry(m.log[|s.log|..], s'.log[|m.log|], c);
    assert s'.log[|s.log|..] == m.log[|s.log|..] + [s'.log[|m.log|]];
    assert ts == ts[..n] + [ts[n]];
  }

  /** From where thread t holds c's bucket in the map, full of limits m, some run decides
      otherwise than the current limits, if they are not alike. */
  lemma UnlikeShows(u: State, run: seq<Event>, s: State, t: Thread, c: string, id: nat) returns (run': seq<Event>, s': State)
    requires Quiet(u, run, s) && StageOf(s, t) == Holding(c, id) && u.log == s.log && s.clock == u.clock
    requires c in s.buckets && s.buckets[c] == id < |s.heap|
    requires s.heap[id].level == Full(s.heap[id].limits, u.clock)
    requires !Alike(LimitsFor(u.cfg, c), s.heap[id].limits)
    ensures Quiet(u, run', s') && !ServedAfresh(u, s', c)
  {
    var ts := UnlikeFrom(LimitsFor(u.cfg, c), s.heap[id].limits, u.clock);
    run', s' := Drive(u, run, s, t, c, id, ts);
  }

  /** The insert of a request that missed under limits not alike. */
  lemma StaleShows(u: State, t: Thread) returns (run: seq<Event>, s: State)
    requires u.buckets == map[] && t in u.stages && u.stages[t].Missed? && !Harmless(u, u.stages[t])
    ensures Quiet(u, run, s) && !ServedAfresh(u, s, u.stages[t].consumer)
  {
    var insert := Event(u.clock, Insert(t));
    assert Runs(u, [], u);
    RunOn(u, [], u, insert);
    run, s := UnlikeShows(u, [] + [insert], Next(u, insert), t, u.stages[t].consumer, |u.heap|);
  }

  lemma DryShows(u: State, t: Thread) returns (run: seq<Event>, s: State)
    requires CellsOk(u) && t in u.stages && u.stages[t].Holding? && !Harmless(u, u.stages[t])
    requires Dry(u.heap[u.stages[t].id])
    ensures Quiet(u, run, s) && !ServedAfresh(u, s, u.stages[t].consumer)
  {
    var c, id := u.stages[t].consumer, u.stages[t].id;
    var l := LimitsFor(u.cfg, c);
    var take := Event(u.clock, Take(t));
    assert Runs(u, [], u);
    RunOn(u, [], u, take);
    run, s := [] + [take], Next(u, take);
    DryStays(u.heap[id], u.clock);
    TakenOnce(u, s, Entry(c, u.clock, false));
    FirstTake(l, u.clock, u.clock);
  }

  lemma TakenOnce(u: State, s: State, entry: Entry)
    requires s.log == u.log + [entry]
    ensures Since(u, s) == [entry]
    ensures TimesOf(Since(u, s), entry.consumer) == [entry.at]
    ensures DecisionsOf(Since(u, s), entry.consumer) == [entry.allowed]
  {
    OneMoreEntry([], entry, entry.consumer);
    assert [] + [entry] == [entry];
  }

  lemma FirstTake(l: Limits, t0: int, at: int)
    requires t0 <= at
    ensures Admitted(l, Full(l, t0), [at]) == [l.burst >= 1]
  {
    Accrual(l, t0, at);
    assert [at][..0] == [];
  }

  /** From where the map is empty and thread t is idle, c gets a whole burst at once. */
  lemma FreshBurst(u: State, run: seq<Event>, m: State, t: Thread, c: string) returns (run': seq<Event>, s: State)
    requires Quiet(u, run, m) && m.buckets == map[] && StageOf(m, t).Idle? && LimitsFor(m.cfg, c).burst >= 1
    ensures Quiet(u, run', s) && |m.log| <= |s.log| && s.log[..|m.log|] == m.log
    ensures TimesOf(s.log[|m.log|..], c) == Repeat(LimitsFor(m.cfg, c).burst, m.clock)
    ensures All(DecisionsOf(s.log[|m.log|..], c))
  {
    hide Conforming, Runs, Admitted;
    var l, at := LimitsFor(m.cfg, c), m.clock;
    var look, insert := Event(at, Lookup(t, c)), Event(at, Insert(t));
    RunOn(u, run, m, look);
    var m1 := Next(m, look);
    RunOn(u, run + [look], m1, insert);
    var m2 := Next(m1, insert);
    run', s := Drive(u, run + [look] + [insert], m2, t, c, |m1.heap|, Repeat(l.burst, at));
    BurstAtOnce(l, at);
  }

  /** A held bucket that is not dry admits one take on top of a whole burst of the new one. */
  lemma HeldShows(u: State, t: Thread) returns (run: seq<Event>, s: State)
    requires u.buckets == map[] && CellsOk(u) && t in u.stages && u.stages[t].Holding?
    requires !Dry(u.heap[u.stages[t].id])
    ensures Quiet(u, run, s) && !ServedAfresh(u, s, u.stages[t].consumer)
  {
    hide Admitted, TimesOf, DecisionsOf, TakeStep;
    var c, id := u.stages[t].consumer, u.stages[t].id;
    var l, at := LimitsFor(u.cfg, c), u.clock + UNIT;
    var take := Event(at, Take(t));
    assert Runs(u, [], u);
    RunOn(u, [], u, take);
    var m := Next(u, take);
    NotDryAdmits(u.heap[id], u.clock, at);
    TakenOnce(u, m, Entry(c, at, true));
    TooManyAtOnce(l, u.clock, at);
    run, s := [] + [take], m;
    if l.burst >= 1 {
      run, s := FreshBurst(u, run, m, t, c);
      assert Since(u, s) == Since(u, m) + s.log[|m.log|..];
      MoreEntries(Since(u, m), s.log[|m.log|..], c);
      assert [at] + Repeat(l.burst, at) == Repeat(l.burst + 1, at);
    } else {
      assert [at] == Repeat(1, at);
    }
  }

  lemma NotDryAdmits(cell: Cell, clock: int, at: int)
    requires !Dry(cell) && 0 <= cell.level.units && cell.level.at <= clock && at == clock + UNIT
    ensures TakeStep(cell.limits, cell.level, at).1.Allowed?
  {
    var l := cell.limits;
    if l.rpm == 0 {
      assert l.rpm * (at - cell.level.at) == 0;
    } else {
      ProductUpTo(1, l.rpm, at - cell.level.at);
    }
  }

  lemma {:induction false} MoreEntries(log: seq<Entry>, more: seq<Entry>, c: string)
    ensures TimesOf(log + more, c) == TimesOf(log, c) + TimesOf(more, c)
    ensures DecisionsOf(log + more, c) == DecisionsOf(log, c) + DecisionsOf(more, c)
    decreases |more|
  {
    if more == [] {
      assert log + more == log;
    } else {
      var n := |more| - 1;
      MoreEntries(log, more[..n], c);
      MoreEntriesStep(log, more, c);
    }
  }

  lemma MoreEntriesStep(log: seq<Entry>, more: seq<Entry>, c: string)
    requires more != []
    ensures
      var front, last := more[..|more| - 1], more[|more| - 1];
      var t, d := if last.consumer == c then [last.at] else [], if last.consumer == c then [last.allowed] else [];
      && TimesOf(log + more, c) == TimesOf(log + front, c) + t && TimesOf(more, c) == TimesOf(front, c) + t
      && DecisionsOf(log + more, c) == DecisionsOf(log + front, c) + d && DecisionsOf(more, c) == DecisionsOf(front, c) + d
  {
    hide TimesOf, DecisionsOf;
    var front, last := more[..|more| - 1], more[|more| - 1];
    assert log + more == log + front + [last] && more == front + [last];
    OneMoreEntry(log + front, last, c);
    OneMoreEntry(front, last, c);
  }

  lemma BurstAtOnce(l: Limits, at: int)
    ensures All(Admitted(l, Full(l, at), Repeat(l.burst, at)))
  {
    var ts := Repeat(l.burst, at);
    forall i, j | 0 <= i <= j < |ts| ensures WithinAllowance(l, ts, i, j) {
      assert l.rpm * (ts[j] - ts[i]) == 0;
    }
    NothingDeniedIffConforming(l, at, ts);
  }

  lemma TooManyAtOnce(l: Limits, t0: int, at: int)
    requires t0 <= at
    ensures !All(Admitted(l, Full(l, t0), Repeat(l.burst + 1, at)))
  {
    var ts := Repeat(l.burst + 1, at);
    assert l.rpm * (ts[l.burst] - ts[0]) == 0;
    assert !WithinAllowance(l, ts, 0, l.burst);
    NothingDeniedIffConforming(l, t0, ts);
  }

  // ----- The exact condition -----

  ghost predicate TakesEffect(u: State) {
    forall run, s, c :: Quiet(u, run, s) ==> ServedAfresh(u, s, c)
  }

  lemma HarmfulShows(u: State, t: Thread) returns (run: seq<Event>, s: State)
    requires u.buckets == map[] && CellsOk(u) && t in u.stages && !Harmless(u, u.stages[t])
    ensures Quiet(u, run, s) && !ServedAfresh(u, s, u.stages[t].consumer)
  {
    if u.stages[t].Missed? {
      run, s := StaleShows(u, t);
    } else if Dry(u.heap[u.stages[t].id]) {
      run, s := DryShows(u, t);
    } else {
      run, s := HeldShows(u, t);
    }
  }

  /** In every reachable state, an update takes effect - each consumer is from then on served as
      by one full bucket of its new limits - exactly when every request caught under way is
      harmless: it missed under limits that serve alike, or it holds a bucket that is dry for a
      consumer whose new burst is zero. */
  lemma UpdateTakesEffectExactly(config: Config, t0: int, run: seq<Event>, s: State, e: Event)
    requires Runs(Init(config, t0), run, s) && Enabled(s, e) && e.step.Update?
    ensures TakesEffect(Next(s, e)) <==> AllHarmless(Next(s, e))
  {
    var u := Next(s, e);
    RunKeepsCells(Init(config, t0), run, s);
    assert CellsOk(u);
    if AllHarmless(u) {
      forall run', s', c | Quiet(u, run', s') ensures ServedAfresh(u, s', c) {
        HarmlessServesAfresh(u, run', s', c);
      }
    } else {
      var t :| t in u.stages && !Harmless(u, u.stages[t]);
      var run', s' := HarmfulShows(u, t);
      assert Quiet(u, run', s') && !ServedAfresh(u, s', u.stages[t].consumer);
    }
  }

  /** In particular an update takes effect when no request is under way. */
  lemma IdleUpdateTakesEffect(u: State, run: seq<Event>, s: State, c: string)
    requires u.buckets == map[] && (forall t :: t in u.stages ==> u.stages[t].Idle?)
    requires Quiet(u, run, s)
    ensures ServedAfresh(u, s, c)
  {
    HarmlessServesAfresh(u, run, s, c);
  }

  const ONE_A_SECOND := Config(60, 1, map[])

  /** A lookup, an insert, and an update to the very same configuration. */
  function Renewed(): State {
    var s1 := Next(Init(ONE_A_SECOND, 0), Event(0, Lookup(1, "a")));
    var s2 := Next(s1, Event(0, Insert(1)));
    Next(s2, Event(0, Update(ONE_A_SECOND)))
  }

  lemma RenewedIs()
    ensures
      var full := Cell(Limits(60, 1), Full(Limits(60, 1), 0));
      Renewed() == State(ONE_A_SECOND, map[], [full], map[1 := Holding("a", 0)], 0, [])
    ensures TakeStep(Limits(60, 1), Full(Limits(60, 1), 0), 0) == (Level(0, 0), Allowed)
  {
  }

  /** The request still takes from the bucket it holds, and the next one from a fresh one: two
      admissions at one instant under a burst of one, although no stale limits are involved. */
  lemma HeldBucketIsExtra() returns (run: seq<Event>, s: State)
    ensures Quiet(Renewed(), run, s) && !StalePending(Renewed())
    ensures s.log == [Entry("a", 0, true), Entry("a", 0, true)] && !ServedAfresh(Renewed(), s, "a")
  {
    hide Renewed, TakeStep, ServedAfresh;
    RenewedIs();
    var u := Renewed();
    run := [Event(0, Take(1)), Event(0, Lookup(2, "a")), Event(0, Insert(2)), Event(0, Take(2))];
    var s1 := Next(u, run[0]);
    var s2 := Next(s1, run[1]);
    var s3 := Next(s2, run[2]);
    assert s3.heap[1] == Cell(Limits(60, 1), Full(Limits(60, 1), 0));
    s := Next(s3, run[3]);
    assert run[1..][1..] == run[2..] && run[1..][1..][1..] == run[3..] && run[1..][1..][1..][1..] == [];
    assert Runs(s3, run[3..], s);
    assert Runs(s2, run[2..], s);
    assert Runs(s1, run[1..], s);
    TwoAtOnce(u, s);
  }

  lemma TwoAtOnce(u: State, s: State)
    requires u.cfg == ONE_A_SECOND && u.clock == 0 && u.log == []
    requires s.log == [Entry("a", 0, true), Entry("a", 0, true)]
    ensures !ServedAfresh(u, s, "a")
  {
    var entry := Entry("a", 0, true);
    TooManyAtOnce(Limits(60, 1), 0, 0);
    assert Repeat(2, 0) == [0] + [0];
    assert Since(u, s) == [] + [entry] + [entry];
    OneMoreEntry([], entry, "a");
    OneMoreEntry([] + [entry], entry, "a");
  }
}
