/** The health checker: one entry per configured backend, moved by probe results that land
    in any order and by configuration reloads.
 */
module Health {
  import opened Backends
  import opened Options

  datatype BackendState = StateUnknown | StateHealthy | StateUnhealthy

  datatype Entry = Entry(state: BackendState, failures: nat, lastCheck: Option<int>)

  const FRESH := Entry(StateUnknown, 0, None)

  datatype Event =
    | Reload(cfg: seq<Backend>)
    | Probe(name: string, healthy: bool, at: int)

  datatype Status = Status(name: string, state: BackendState, lastCheck: Option<int>)

  // ----- One step on the entries -----

  /** Entries of backends that stay are kept, new ones start fresh, others go. */
  function Reconciled(states: map<string, Entry>, cfg: seq<Backend>): map<string, Entry> {
    map n | n in Names(cfg) :: if n in states then states[n] else FRESH
  }

  function Probed(threshold: int, e: Entry, healthy: bool, at: int): Entry {
    if healthy then Entry(StateHealthy, 0, Some(at))
    else
      Entry(if e.failures + 1 >= threshold then StateUnhealthy else e.state, e.failures + 1, Some(at))
  }

  function Landed(threshold: int, states: map<string, Entry>, name: string, healthy: bool, at: int): map<string, Entry> {
    if name in states then states[name := Probed(threshold, states[name], healthy, at)] else states
  }

  function EntriesAfter(threshold: int, cfg0: seq<Backend>, events: seq<Event>): map<string, Entry> {
    if events == [] then Reconciled(map[], cfg0)
    else
      var before := EntriesAfter(threshold, cfg0, events[..|events| - 1]);
      match events[|events| - 1]
      case Reload(cfg) => Reconciled(before, cfg)
      case Probe(name, healthy, at) => Landed(threshold, before, name, healthy, at)
  }

  function ConfigAfter(cfg0: seq<Backend>, events: seq<Event>): seq<Backend> {
    if events == [] then cfg0
    else
      match events[|events| - 1]
      case Reload(cfg) => cfg
      case Probe(_, _, _) => ConfigAfter(cfg0, events[..|events| - 1])
  }

  lemma StatesFollow(threshold: int, cfg0: seq<Backend>, history: seq<Event>, e: Event)
    ensures
      var h := history + [e];
      && EntriesAfter(threshold, cfg0, h)
         == (if e.Reload? then Reconciled(EntriesAfter(threshold, cfg0, history), e.cfg)
             else Landed(threshold, EntriesAfter(threshold, cfg0, history), e.name, e.healthy, e.at))
      && ConfigAfter(cfg0, h) == (if e.Reload? then e.cfg else ConfigAfter(cfg0, history))
  {
    assert (history + [e])[..|history|] == history;
  }

  class HealthChecker {
    var cfg: seq<Backend>
    var states: map<string, Entry>
    const threshold: int
    ghost const cfg0: seq<Backend>
    ghost var history: seq<Event>

    ghost predicate Valid()
      reads this
    {
      && threshold != 0
      && states == EntriesAfter(threshold, cfg0, history)
      && cfg == ConfigAfter(cfg0, history)
      && states.Keys == Names(cfg)
    }

    constructor (config: seq<Backend>, failureThreshold: int)
      ensures Valid() && history == [] && cfg == config && cfg0 == config
      ensures threshold == if failureThreshold == 0 then 3 else failureThreshold
    {
      threshold := if failureThreshold == 0 then 3 else failureThreshold;
      var entries: map<string, Entry> := map[];
      for i := 0 to |config|
        invariant entries == Reconciled(map[], config[..i])
      {
        assert Names(config[..i + 1]) == Names(config[..i]) + {config[i].name};
        entries := entries[config[i].name := FRESH];
      }
      assert config[..|config|] == config;
      states := entries;
      cfg := config;
      cfg0 := config;
      history := [];
    }

    method UpdateConfig(config: seq<Backend>)
      requires Valid()
      modifies this
      ensures Valid() && history == old(history) + [Reload(config)]
      ensures cfg == config && states == Reconciled(old(states), config)
    {
      hide EntriesAfter, ConfigAfter;
      cfg := config;
      var seen := AddMissing(config);
      Prune(seen);
      assert states == Reconciled(old(states), config);
      history := history + [Reload(config)];
      StatesFollow(threshold, cfg0, old(history), Reload(config));
    }

    lemma AddOne(before: map<string, Entry>, config: seq<Backend>, i: nat)
      requires i <= |config|
      ensures Names(config[..0]) == {} && before + Reconciled(before, config[..0]) == before
      ensures i < |config| ==> Names(config[..i + 1]) == Names(config[..i]) + {config[i].name}
      ensures i < |config| ==>
                var sofar := before + Reconciled(before, config[..i]);
                var name := config[i].name;
                before + Reconciled(before, config[..i + 1]) == if name in sofar then sofar else sofar[name := FRESH]
    {
      if i < |config| {
        assert Names(config[..i + 1]) == Names(config[..i]) + {config[i].name};
      }
    }

    /** Adds an entry for every configured name that has none and returns the names. */
    method AddMissing(config: seq<Backend>) returns (seen: set<string>)
      modifies this`states
      ensures seen == Names(config)
      ensures states == old(states) + Reconciled(old(states), config)
    {
      hide Names, Reconciled;
      AddOne(old(states), config, 0);
      seen := {};
      for i := 0 to |config|
        invariant seen == Names(config[..i])
        invariant states == old(states) + Reconciled(old(states), config[..i])
      {
        var name := config[i].name;
        AddOne(old(states), config, i);
        seen := seen + {name};
        if name !in states {
          states := states[name := FRESH];
        }
      }
      assert config[..|config|] == config;
    }

    /** Deletes every entry whose name was not seen. */
    method Prune(seen: set<string>)
      modifies this`states
      ensures states == map n | n in old(states) && n in seen :: old(states)[n]
    {
      var todo := states.Keys;
      while todo != {}
        invariant todo <= old(states).Keys
        invariant states == map n | n in old(states) && (n in seen || n in todo) :: old(states)[n]
        decreases todo
      {
        var name :| name in todo;
        if name !in seen {
          states := states - {name};
        }
        todo := todo - {name};
      }
    }

    /** The locked half of checkOne: a probe result lands. */
    method Land(name: string, healthy: bool, now: int)
      requires Valid()
      modifies this
      ensures Valid() && history == old(history) + [Probe(name, healthy, now)]
      ensures cfg == old(cfg) && states == Landed(threshold, old(states), name, healthy, now)
    {
      hide EntriesAfter, ConfigAfter;
      if name in states {
        var s := states[name];
        s := s.(lastCheck := Some(now));
        if healthy {
          s := s.(failures := 0, state := StateHealthy);
        } else {
          s := s.(failures := s.failures + 1);
          if s.failures >= threshold {
            s := s.(state := StateUnhealthy);
          }
        }
        states := states[name := s];
      }
      history := history + [Probe(name, healthy, now)];
      StatesFollow(threshold, cfg0, old(history), Probe(name, healthy, now));
    }

    method IsHealthy(name: string) returns (ok: bool)
      requires Valid()
      ensures ok == Available(states, name)
    {
      if name !in states {
        return false;
      }
      ok := states[name].state != StateUnhealthy;
    }

    /** The admin report. It looks every configured backend up without a check. */
    method Report() returns (statuses: seq<Status>, degraded: bool)
      requires Valid()
      ensures |statuses| == |cfg|
      ensures forall i :: 0 <= i < |cfg| ==>
                cfg[i].name in states &&
                statuses[i] == Status(cfg[i].name, states[cfg[i].name].state, states[cfg[i].name].lastCheck)
      ensures degraded <==> exists i :: 0 <= i < |statuses| && statuses[i].state == StateUnhealthy && !cfg[i].expectedDown
    {
      statuses := [];
      degraded := false;
      for i := 0 to |cfg|
        invariant |statuses| == i
        invariant forall j :: 0 <= j < i ==>
                    cfg[j].name in states &&
                    statuses[j] == Status(cfg[j].name, states[cfg[j].name].state, states[cfg[j].name].lastCheck)
        invariant degraded <==> exists j :: 0 <= j < i && statuses[j].state == StateUnhealthy && !cfg[j].expectedDown
      {
        var name := cfg[i].name;
        assert name in Names(cfg);
        var s := states[name];
        if s.state == StateUnhealthy && !cfg[i].expectedDown {
          degraded := true;
        }
        statuses := statuses + [Status(name, s.state, s.lastCheck)];
      }
    }
  }

  /** Only a backend confirmed unhealthy, or one without an entry, is passed over. */
  predicate Available(states: map<string, Entry>, name: string) {
    name in states && states[name].state != StateUnhealthy
  }

  // ----- What an entry says about the history -----

  datatype Outcome = Outcome(healthy: bool, at: int)

  /** The probe outcomes that landed on a backend since it was last added; None while it is
      not configured. */
  function SinceAdded(cfg0: seq<Backend>, events: seq<Event>, name: string): Option<seq<Outcome>> {
    if events == [] then
      if name in Names(cfg0) then Some([]) else None
    else
      var before := SinceAdded(cfg0, events[..|events| - 1], name);
      match events[|events| - 1]
      case Reload(cfg) =>
        if name !in Names(cfg) then None else if before.None? then Some([]) else before
      case Probe(n, healthy, at) =>
        if n == name && before.Some? then Some(before.value + [Outcome(healthy, at)]) else before
  }

  /** The length of the failing run at the end. */
  function TrailingFailures(h: seq<Outcome>): nat {
    if h == [] || h[|h| - 1].healthy then 0 else 1 + TrailingFailures(h[..|h| - 1])
  }

  /** It is the failures behind the last success. */
  lemma {:induction false} TrailingFailuresAre(h: seq<Outcome>)
    ensures
      var n := TrailingFailures(h);
      && n <= |h| && (forall i :: |h| - n <= i < |h| ==> !h[i].healthy)
      && (n < |h| ==> h[|h| - n - 1].healthy)
  {
    if h != [] && !h[|h| - 1].healthy {
      TrailingFailuresAre(h[..|h| - 1]);
    }
  }

  predicate SomeSuccess(h: seq<Outcome>) {
    exists i :: 0 <= i < |h| && h[i].healthy
  }

  /** A negative threshold acts like one of 1. */
  function EffectiveThreshold(threshold: int): int {
    if threshold < 1 then 1 else threshold
  }

  function Verdict(threshold: int, h: seq<Outcome>): Entry {
    Entry(if TrailingFailures(h) >= EffectiveThreshold(threshold) then StateUnhealthy
          else if SomeSuccess(h) then StateHealthy
          else StateUnknown,
          TrailingFailures(h),
          if h == [] then None else Some(h[|h| - 1].at))
  }

  lemma VerdictStep(threshold: int, h: seq<Outcome>, o: Outcome)
    ensures Verdict(threshold, h + [o]) == Probed(threshold, Verdict(threshold, h), o.healthy, o.at)
  {
    var h' := h + [o];
    assert h'[..|h|] == h && h'[|h|] == o;
    if SomeSuccess(h) {
      var i :| 0 <= i < |h| && h[i].healthy;
      assert h'[i].healthy;
    }
    if SomeSuccess(h') && !o.healthy {
      var i :| 0 <= i < |h'| && h'[i].healthy;
      assert h[i].healthy;
    }
  }

  /** In every reachable state, whatever the order of probes and reloads, a backend has an
      entry exactly while it is configured, and that entry is the verdict on the outcomes
      since it was last added. */
  lemma {:induction false} EntriesAreVerdicts(threshold: int, cfg0: seq<Backend>, events: seq<Event>, name: string)
    ensures
      var entries, h := EntriesAfter(threshold, cfg0, events), SinceAdded(cfg0, events, name);
      && (name in entries <==> h.Some?)
      && (name in entries <==> name in Names(ConfigAfter(cfg0, events)))
      && (name in entries ==> entries[name] == Verdict(threshold, h.value))
  {
    if events != [] {
      var before := events[..|events| - 1];
      EntriesAreVerdicts(threshold, cfg0, before, name);
      match events[|events| - 1] {
        case Reload(cfg) =>
        case Probe(n, healthy, at) =>
          if n == name && name in EntriesAfter(threshold, cfg0, before) {
            VerdictStep(threshold, SinceAdded(cfg0, before, name).value, Outcome(healthy, at));
          }
      }
    }
  }
}
