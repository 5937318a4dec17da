/** Live reload: the health checker is updated first, then the request chain is swapped, while
    requests already started keep walking the chain they captured. Reloads are serialised.
 */
module LiveReload {
  import opened Backends
  import opened Health
  import opened Fallback
  import ChainWalk

  /** The request chain built from one configuration. */
  datatype Handler = Handler(cfg: seq<Backend>, chains: map<string, seq<nat>>)

  predicate BuiltFrom(h: Handler, cfg: seq<Backend>) {
    && h.cfg == cfg
    && (forall m :: m in h.chains ==> IsChain(cfg, m, h.chains[m]))
    && (forall i :: 0 <= i < |cfg| ==> cfg[i].model in h.chains)
  }

  class Gateway {
    var cfg: seq<Backend>
    const health: HealthChecker
    var liveHandler: Handler
    var currentProxy: Handler

    /** What holds whenever no reload is under way. */
    ghost predicate Valid()
      reads this, health
    {
      && health.Valid() && health.cfg == cfg
      && BuiltFrom(liveHandler, cfg) && currentProxy == liveHandler
    }

    constructor (config: seq<Backend>, failureThreshold: int)
      ensures Valid() && fresh(health) && cfg == config && health.history == []
    {
      cfg := config;
      health := new HealthChecker(config, failureThreshold);
      var chains := BuildFallbackChain(config);
      liveHandler := Handler(config, chains);
      currentProxy := Handler(config, chains);
    }

    method BuildProxyHandler(config: seq<Backend>) returns (h: Handler)
      modifies this`currentProxy
      ensures BuiltFrom(h, config) && currentProxy == h
    {
      var chains := BuildFallbackChain(config);
      h := Handler(config, chains);
      currentProxy := h;
    }

    method Reload(config: seq<Backend>)
      requires Valid()
      modifies this, health
      ensures Valid() && cfg == config
      ensures health.states == Reconciled(old(health.states), config)
      ensures health.history == old(health.history) + [Event.Reload(config)]
    {
      cfg := config;
      health.UpdateConfig(config);
      liveHandler := BuildProxyHandler(config);
    }

    /** When no reload is under way, a backend of the live chains is passed over only if it is
        confirmed unhealthy, never for want of an entry. */
    lemma LiveBackendsHaveEntries(model: string, k: nat)
      requires Valid() && model in liveHandler.chains && k < |liveHandler.chains[model]|
      ensures
        var i := liveHandler.chains[model][k];
        && i < |cfg| && cfg[i].name in health.states
        && (!Available(health.states, cfg[i].name) <==> health.states[cfg[i].name].state == StateUnhealthy)
    {
      var i := liveHandler.chains[model][k];
      assert cfg[i].name in Names(cfg);
    }
  }

  // ----- Runs: requests, probes and reloads interleaved -----

  datatype Phase = Settled | Swapping(next: seq<Backend>)

  /** A request in flight: the chain it captured and how far it has walked. */
  datatype Walk = Walk(cfg: seq<Backend>, chain: seq<nat>, pos: nat, finished: bool)

  /** One health check made by a request: which request and backend, after how much of the
      history, with what answer, and what came over the wire if the backend was called. */
  datatype Check = Check(id: nat, name: string, moment: nat, passed: bool, wire: ChainWalk.Wire)

  datatype State = State(
    threshold: int,
    validate: bool,
    cfg0: seq<Backend>,
    history: seq<Event>,
    states: map<string, Entry>,
    phase: Phase,
    live: seq<Backend>,
    walks: map<nat, Walk>,
    checks: seq<Check>)

  datatype Step =
    | BeginReload(cfg: seq<Backend>)
    | EndReload
    | Land(name: string, healthy: bool, at: int)
    | Start(id: nat, model: string, chain: seq<nat>)
    | Visit(id: nat, wire: ChainWalk.Wire)

  function Init(threshold: int, validate: bool, cfg0: seq<Backend>): State {
    State(threshold, validate, cfg0, [], Reconciled(map[], cfg0), Settled, cfg0, map[], [])
  }

  predicate WalkOk(w: Walk) {
    InRange(w.cfg, w.chain) && w.pos <= |w.chain|
  }

  predicate Enabled(s: State, step: Step) {
    match step
    case BeginReload(_) => s.phase.Settled?
    case EndReload => s.phase.Swapping?
    case Land(_, _, _) => true
    case Start(id, model, chain) => id !in s.walks && IsChain(s.live, model, chain)
    case Visit(id, _) =>
      id in s.walks && WalkOk(s.walks[id]) && !s.walks[id].finished && s.walks[id].pos < |s.walks[id].chain|
  }

  function NameAt(w: Walk): string
    requires WalkOk(w) && w.pos < |w.chain|
  {
    w.cfg[w.chain[w.pos]].name
  }

  /** What a check saw, in the terms of a chain walked alone. */
  function Seen(c: Check): ChainWalk.Visit {
    ChainWalk.Visit(c.passed, c.wire, 0)
  }

  predicate Served(validate: bool, c: Check) {
    ChainWalk.Serves(validate, Seen(c))
  }

  function Next(s: State, step: Step): State
    requires Enabled(s, step)
  {
    match step
    case BeginReload(cfg) =>
      s.(history := s.history + [Event.Reload(cfg)], states := Reconciled(s.states, cfg), phase := Swapping(cfg))
    case EndReload =>
      s.(live := s.phase.next, phase := Settled)
    case Land(name, healthy, at) =>
      s.(history := s.history + [Probe(name, healthy, at)],
         states := Landed(s.threshold, s.states, name, healthy, at))
    case Start(id, _, chain) =>
      s.(walks := s.walks[id := Walk(s.live, chain, 0, false)])
    case Visit(id, wire) =>
      var w := s.walks[id];
      var check := Check(id, NameAt(w), |s.history|, Available(s.states, NameAt(w)), wire);
      s.(walks := s.walks[id := if Served(s.validate, check) then w.(finished := true) else w.(pos := w.pos + 1)],
         checks := s.checks + [check])
  }

  predicate Runs(s: State, run: seq<Step>, s': State)
    decreases |run|
  {
    if run == [] then s' == s
    else Enabled(s, run[0]) && Runs(Next(s, run[0]), run[1..], s')
  }

  // ----- What every state of every run satisfies -----

  /** A check passes exactly when its backend is configured at that moment and its failing
      run, counted since it was last added, is below the threshold. */
  predicate CheckOk(s: State, c: Check) {
    && c.moment <= |s.history|
    && var past := s.history[..c.moment];
       var h := SinceAdded(s.cfg0, past, c.name);
       && (h.Some? <==> c.name in Names(ConfigAfter(s.cfg0, past)))
       && (c.passed <==> h.Some? && TrailingFailures(h.value) < EffectiveThreshold(s.threshold))
  }

  predicate Inv(s: State) {
    && s.states == EntriesAfter(s.threshold, s.cfg0, s.history)
    && ConfigAfter(s.cfg0, s.history) == (if s.phase.Settled? then s.live else s.phase.next)
    && (forall id :: id in s.walks ==> WalkOk(s.walks[id]))
    && (forall i :: 0 <= i < |s.checks| ==> CheckOk(s, s.checks[i]))
  }

  lemma HistoryGrows(s: State, c: Check, e: Event)
    requires CheckOk(s, c)
    ensures CheckOk(s.(history := s.history + [e]), c)
  {
    assert (s.history + [e])[..c.moment] == s.history[..c.moment];
  }

  lemma NewCheckOk(s: State, id: nat, name: string, wire: ChainWalk.Wire)
    requires Inv(s)
    ensures CheckOk(s, Check(id, name, |s.history|, Available(s.states, name), wire))
  {
    assert s.history[..|s.history|] == s.history;
    EntriesAreVerdicts(s.threshold, s.cfg0, s.history, name);
  }

  lemma StepKeepsInv(s: State, step: Step)
    requires Inv(s) && Enabled(s, step)
    ensures Inv(Next(s, step))
  {
    hide EntriesAfter, ConfigAfter, CheckOk;
    match step {
      case BeginReload(cfg) =>
        ChecksSurvive(s, Event.Reload(cfg));
        StatesFollow(s.threshold, s.cfg0, s.history, Event.Reload(cfg));
        ChecksIgnore(s.(history := s.history + [Event.Reload(cfg)]), Next(s, step));
      case EndReload =>
        ChecksIgnore(s, Next(s, step));
      case Land(name, healthy, at) =>
        ChecksSurvive(s, Probe(name, healthy, at));
        StatesFollow(s.threshold, s.cfg0, s.history, Probe(name, healthy, at));
        ChecksIgnore(s.(history := s.history + [Probe(name, healthy, at)]), Next(s, step));
      case Start(id, _, _) =>
        ChecksIgnore(s, Next(s, step));
      case Visit(id, wire) =>
        NewCheckOk(s, id, NameAt(s.walks[id]), wire);
        ChecksIgnore(s.(checks := Next(s, step).checks), Next(s, step));
        ChecksIgnore(s, s.(checks := Next(s, step).checks));
    }
  }

  lemma ChecksSurvive(s: State, e: Event)
    requires forall i :: 0 <= i < |s.checks| ==> CheckOk(s, s.checks[i])
    ensures forall i :: 0 <= i < |s.checks| ==> CheckOk(s.(history := s.history + [e]), s.checks[i])
  {
    forall i | 0 <= i < |s.checks| ensures CheckOk(s.(history := s.history + [e]), s.checks[i]) {
      HistoryGrows(s, s.checks[i], e);
    }
  }

  /** Checks are judged by the history alone. */
  lemma ChecksIgnore(s: State, s': State)
    requires s'.threshold == s.threshold && s'.cfg0 == s.cfg0 && s'.history == s.history
    ensures forall c :: CheckOk(s', c) == CheckOk(s, c)
  {
  }

  lemma {:induction false} RunKeepsInv(s: State, run: seq<Step>, s': State)
    requires Inv(s) && Runs(s, run, s')
    ensures Inv(s') && s'.threshold == s.threshold && s'.cfg0 == s.cfg0
    decreases |run|
  {
    if run != [] {
      StepKeepsInv(s, run[0]);
      RunKeepsInv(Next(s, run[0]), run[1..], s');
    }
  }

  /** In every run, over every interleaving of requests on old and new chains with probes and
      serialised reloads: a request calls a backend only if that backend belongs to the
      configuration current at its check and is not failing there, and passes over only
      backends that are failing or no longer configured. */
  lemma CallsOnlyCurrentHealthyBackends(threshold: int, validate: bool, cfg0: seq<Backend>, run: seq<Step>, s: State, i: nat)
    requires Runs(Init(threshold, validate, cfg0), run, s) && i < |s.checks|
    ensures
      var c := s.checks[i];
      && c.moment <= |s.history|
      && var past := s.history[..c.moment];
         var h := SinceAdded(cfg0, past, c.name);
         && (h.Some? <==> c.name in Names(ConfigAfter(cfg0, past)))
         && (c.passed <==> h.Some? && TrailingFailures(h.value) < EffectiveThreshold(threshold))
  {
    RunKeepsInv(Init(threshold, validate, cfg0), run, s);
    assert CheckOk(s, s.checks[i]);
  }

  /** Between reloads every live backend has an entry; while a reload is under way the live
      backends without one are exactly those the new configuration drops. */
  lemma LiveBackendsCovered(threshold: int, validate: bool, cfg0: seq<Backend>, run: seq<Step>, s: State, name: string)
    requires Runs(Init(threshold, validate, cfg0), run, s) && name in Names(s.live)
    ensures s.phase.Settled? ==> name in s.states
    ensures s.phase.Swapping? ==> (name !in s.states <==> name !in Names(s.phase.next))
  {
    RunKeepsInv(Init(threshold, validate, cfg0), run, s);
    EntriesAreVerdicts(threshold, cfg0, s.history, name);
  }

  // ----- Where a walk ends -----

  /** The checks request `id` made, in order. */
  function ChecksOf(checks: seq<Check>, id: nat): seq<Check> {
    if checks == [] then []
    else
      var last := checks[|checks| - 1];
      ChecksOf(checks[..|checks| - 1], id) + (if last.id == id then [last] else [])
  }

  /** The checks so far are those of the chain's first positions, none served but the last of a
      finished walk. */
  predicate WalkedAs(validate: bool, w: Walk, cs: seq<Check>) {
    && WalkOk(w) && |cs| == w.pos + (if w.finished then 1 else 0) <= |w.chain|
    && (forall k :: 0 <= k < |cs| ==> cs[k].name == w.cfg[w.chain[k]].name)
    && (forall k :: 0 <= k < |cs| ==> (Served(validate, cs[k]) <==> w.finished && k == w.pos))
  }

  predicate WalksOk(s: State) {
    && (forall i :: 0 <= i < |s.checks| ==> s.checks[i].id in s.walks)
    && (forall id :: id in s.walks ==> WalkedAs(s.validate, s.walks[id], ChecksOf(s.checks, id)))
  }

  lemma OneMoreCheck(checks: seq<Check>, c: Check, id: nat)
    ensures ChecksOf(checks + [c], id) == ChecksOf(checks, id) + (if c.id == id then [c] else [])
  {
    assert (checks + [c])[..|checks|] == checks;
  }

  lemma {:induction false} NoChecks(checks: seq<Check>, id: nat)
    requires forall i :: 0 <= i < |checks| ==> checks[i].id != id
    ensures ChecksOf(checks, id) == []
  {
    if checks != [] {
      NoChecks(checks[..|checks| - 1], id);
    }
  }

  lemma StepKeepsWalks(s: State, step: Step)
    requires WalksOk(s) && Enabled(s, step)
    ensures WalksOk(Next(s, step))
  {
    hide ChecksOf;
    if step.Start? {
      NoChecks(s.checks, step.id);
    } else if step.Visit? {
      var c := Next(s, step).checks[|s.checks|];
      forall id | id in s.walks
        ensures ChecksOf(s.checks + [c], id) == ChecksOf(s.checks, id) + (if c.id == id then [c] else [])
      {
        OneMoreCheck(s.checks, c, id);
      }
    }
  }

  lemma {:induction false} RunKeepsWalks(s: State, run: seq<Step>, s': State)
    requires WalksOk(s) && Runs(s, run, s')
    ensures WalksOk(s') && s'.validate == s.validate
    decreases |run|
  {
    if run != [] {
      StepKeepsWalks(s, run[0]);
      RunKeepsWalks(Next(s, run[0]), run[1..], s');
    }
  }

  function NamesOf(w: Walk): (names: seq<string>)
    requires WalkOk(w)
    ensures |names| == |w.chain|
  {
    seq(|w.chain|, k requires 0 <= k < |w.chain| => w.cfg[w.chain[k]].name)
  }

  /** In every run, while health and configuration change between its checks, a walk ends where
      the chain walked alone ends on what its own checks saw: a finished one at the first
      position that serves, with that backend's response, and one that has passed its whole
      chain with none. */
  lemma WalkEndsAtFirstServing(threshold: int, validate: bool, cfg0: seq<Backend>, run: seq<Step>, s: State, id: nat, model: string, visits: seq<ChainWalk.Visit>)
    requires Runs(Init(threshold, validate, cfg0), run, s) && id in s.walks
    requires |visits| == |s.walks[id].chain|
    requires forall k :: 0 <= k < |ChecksOf(s.checks, id)| && k < |visits| ==> visits[k] == Seen(ChecksOf(s.checks, id)[k])
    ensures WalkedAs(validate, s.walks[id], ChecksOf(s.checks, id))
    ensures
      var w := s.walks[id];
      var names := NamesOf(w);
      && (w.finished || w.pos == |w.chain| ==> ChainWalk.FirstServing(validate, visits, 0) == w.pos)
      && (w.finished ==>
            && w.pos < |w.chain|
            && ChainWalk.ClientSees(model, names, validate, visits)
               == ChainWalk.Relayed(names[w.pos], visits[w.pos].wire.status, w.pos > 0))
      && (!w.finished && w.pos == |w.chain| ==>
            ChainWalk.ClientSees(model, names, validate, visits) == ChainWalk.Unavailable(model, names))
  {
    hide ChainWalk.FirstServing, ChainWalk.ClientSees, ChainWalk.Serves, Enabled;
    RunKeepsWalks(Init(threshold, validate, cfg0), run, s);
    var w, cs := s.walks[id], ChecksOf(s.checks, id);
    assert WalkedAs(validate, w, cs);
    forall k | 0 <= k < |cs|
      ensures ChainWalk.Serves(validate, visits[k]) <==> w.finished && k == w.pos
    {
      assert Served(validate, cs[k]) <==> w.finished && k == w.pos;
    }
    EndsAt(model, NamesOf(w), validate, visits, w.pos, w.finished);
  }

  lemma EndsAt(model: string, names: seq<string>, validate: bool, visits: seq<ChainWalk.Visit>, pos: nat, finished: bool)
    requires |visits| == |names| && pos <= |names| && (finished ==> pos < |names| && ChainWalk.Serves(validate, visits[pos]))
    requires forall k :: 0 <= k < pos ==> !ChainWalk.Serves(validate, visits[k])
    ensures finished || pos == |names| ==> ChainWalk.FirstServing(validate, visits, 0) == pos
    ensures finished ==>
              ChainWalk.ClientSees(model, names, validate, visits)
              == ChainWalk.Relayed(names[pos], visits[pos].wire.status, pos > 0)
    ensures !finished && pos == |names| ==>
              ChainWalk.ClientSees(model, names, validate, visits) == ChainWalk.Unavailable(model, names)
  {
  }

  // ----- Which chain a walk walks -----

  /** In `run`, request `id` started at step i, on the chain the live configuration had then. */
  predicate StartedAt(threshold: int, validate: bool, cfg0: seq<Backend>, run: seq<Step>, i: nat, u: State, id: nat, w: Walk) {
    && i < |run| && Runs(Init(threshold, validate, cfg0), run[..i], u)
    && run[i].Start? && run[i].id == id && w.cfg == u.live && w.chain == run[i].chain
    && IsChain(u.live, run[i].model, run[i].chain)
  }

  lemma {:induction false} RunBefore(s: State, run: seq<Step>, s': State, i: nat) returns (u: State)
    requires Runs(s, run, s') && i <= |run|
    ensures Runs(s, run[..i], u) && Runs(u, run[i..], s')
    decreases i
  {
    if i == 0 {
      assert run[0..] == run;
      u := s;
    } else {
      assert run[..i][1..] == run[1..][..i - 1] && run[1..][i - 1..] == run[i..];
      u := RunBefore(Next(s, run[0]), run[1..], s', i - 1);
    }
  }

  /** A step starts a request or leaves the chain of every walk as it is. */
  lemma {:induction false} WalkStarted(s: State, run: seq<Step>, s': State, id: nat) returns (i: nat)
    requires Runs(s, run, s') && id in s'.walks && id !in s.walks
    ensures i < |run| && run[i].Start? && run[i].id == id
    ensures s'.walks[id].chain == run[i].chain
    ensures forall u :: Runs(s, run[..i], u) ==> s'.walks[id].cfg == u.live && IsChain(u.live, run[i].model, run[i].chain)
    decreases |run|
  {
    i := 0;
    var m := Next(s, run[0]);
    if id in m.walks {
      WalkKeepsChain(m, run[1..], s', id);
      assert run[..0] == [];
    } else {
      i := WalkStarted(m, run[1..], s', id);
      assert run[..i + 1][1..] == run[1..][..i];
      i := i + 1;
    }
  }

  lemma {:induction false} WalkKeepsChain(s: State, run: seq<Step>, s': State, id: nat)
    requires Runs(s, run, s') && id in s.walks
    ensures id in s'.walks && s'.walks[id].chain == s.walks[id].chain && s'.walks[id].cfg == s.walks[id].cfg
    decreases |run|
  {
    if run != [] {
      WalkKeepsChain(Next(s, run[0]), run[1..], s', id);
    }
  }

  /** In every run, whatever is reloaded meanwhile, a walk walks exactly the chain its request
      captured: a chain of the configuration that was live when the request started. */
  lemma WalksCapturedChain(threshold: int, validate: bool, cfg0: seq<Backend>, run: seq<Step>, s: State, id: nat)
    returns (i: nat, u: State)
    requires Runs(Init(threshold, validate, cfg0), run, s) && id in s.walks
    ensures StartedAt(threshold, validate, cfg0, run, i, u, id, s.walks[id])
  {
    i := WalkStarted(Init(threshold, validate, cfg0), run, s, id);
    u := RunBefore(Init(threshold, validate, cfg0), run, s, i);
  }
}
