/** The token bucket of one consumer, in exact integers.

    Time is a nanosecond count. One token is UNIT units, so a bucket configured with
    `rpm` requests per minute gains exactly `rpm` units every nanosecond and nothing is
    ever rounded. The rounding of 64-bit floats is not modelled.
 */
module TokenBucket {
  import opened Options

  const NANOS_PER_SECOND: int := 1_000_000_000
  const UNIT: int := 60_000_000_000

  datatype Limits = Limits(rpm: nat, burst: nat)

  /** What a bucket stores: its fill in units and the instant that fill was computed. */
  datatype Level = Level(units: int, at: int)

  /** A denial carries the wait in nanoseconds; a bucket that never refills has none. */
  datatype Decision = Allowed | Denied(wait: Option<int>)

  function Min(a: int, b: int): int {
    if a < b then a else b
  }

  /** n tokens, in units. */
  function Cost(n: int): int {
    60_000_000_000 * n
  }

  function Capacity(l: Limits): int {
    Cost(l.burst)
  }

  function Full(l: Limits, now: int): Level {
    Level(Capacity(l), now)
  }

  function Refilled(l: Limits, b: Level, now: int): Level {
    Level(Min(Capacity(l), b.units + l.rpm * (now - b.at)), now)
  }

  function Wait(l: Limits, units: int): Option<int>
  {
    if l.rpm == 0 then None else Some((UNIT - units) / l.rpm)
  }

  function TakeStep(l: Limits, b: Level, now: int): (Level, Decision)
  {
    var r := Refilled(l, b, now);
    if r.units >= UNIT then (Level(r.units - UNIT, now), Allowed)
    else (r, Denied(Wait(l, r.units)))
  }

  /** The whole seconds announced to a denied caller. */
  function RetrySeconds(wait: int): int {
    wait / NANOS_PER_SECOND + 1
  }

  class Bucket {
    var tokens: int
    const maxTokens: int
    const refillRate: nat
    var lastRefill: int
    ghost const limits: Limits

    ghost predicate Valid()
      reads this
    {
      refillRate == limits.rpm && maxTokens == Capacity(limits)
    }

    ghost function State(): Level
      reads this
    {
      Level(tokens, lastRefill)
    }

    constructor (rpm: nat, burst: nat, now: int)
      ensures Valid() && limits == Limits(rpm, burst)
      ensures State() == Full(limits, now)
    {
      maxTokens := Cost(burst);
      refillRate := rpm;
      lastRefill := now;
      tokens := Cost(burst);
      limits := Limits(rpm, burst);
    }

    method Take(now: int) returns (d: Decision)
      requires Valid()
      modifies this
      ensures Valid()
      ensures (State(), d) == TakeStep(limits, old(State()), now)
    {
      var elapsed := now - lastRefill;
      tokens := tokens + refillRate * elapsed;
      if tokens > maxTokens {
        tokens := maxTokens;
      }
      lastRefill := now;
      if tokens >= UNIT {
        tokens := tokens - UNIT;
        return Allowed;
      }
      var needed := UNIT - tokens;
      if refillRate == 0 {
        return Denied(None);
      }
      return Denied(Some(needed / refillRate));
    }
  }

  // ----- Counting admissions -----

  predicate Sorted(ts: seq<int>) {
    forall i, j :: 0 <= i <= j < |ts| ==> ts[i] <= ts[j]
  }

  /** How many of the flags i, i+1, ..., j-1 are set. */
  function Count(flags: seq<bool>, i: nat, j: nat): (n: nat)
    requires i <= j <= |flags|
    ensures n <= j - i
  {
    if i == j then 0 else Count(flags, i, j - 1) + (if flags[j - 1] then 1 else 0)
  }

  lemma {:induction false} CountSplit(flags: seq<bool>, i: nat, m: nat, j: nat)
    requires i <= m <= j <= |flags|
    ensures Count(flags, i, j) == Count(flags, i, m) + Count(flags, m, j)
  {
    if m < j {
      CountSplit(flags, i, m, j - 1);
    }
  }

  lemma {:induction false} CountPrefix(flags: seq<bool>, k: nat, i: nat, j: nat)
    requires i <= j <= k <= |flags|
    ensures Count(flags[..k], i, j) == Count(flags, i, j)
  {
    if i < j {
      CountPrefix(flags, k, i, j - 1);
    }
  }

  lemma {:induction false} CountAll(flags: seq<bool>, i: nat, j: nat)
    requires i <= j <= |flags|
    requires forall k :: i <= k < j ==> flags[k]
    ensures Count(flags, i, j) == j - i
  {
    if i < j {
      CountAll(flags, i, j - 1);
    }
  }

  // ----- A bucket measured on its own accrual clock, where one tick gains one unit -----

  /** The fill left after takes at the readings `xs` of a bucket that was full at `x0`. */
  function Left(cap: int, x0: int, xs: seq<int>): int
    decreases |xs|, 1
  {
    if xs == [] then cap
    else
      var seen := Seen(cap, x0, xs);
      if seen >= UNIT then seen - UNIT else seen
  }

  /** The fill that the last take of `xs` finds. */
  function Seen(cap: int, x0: int, xs: seq<int>): int
    requires xs != []
    decreases |xs|, 0
  {
    var n := |xs| - 1;
    Min(cap, Left(cap, x0, xs[..n]) + xs[n] - (if n == 0 then x0 else xs[n - 1]))
  }

  function Flags(cap: int, x0: int, xs: seq<int>): (flags: seq<bool>)
    ensures |flags| == |xs|
  {
    if xs == [] then []
    else Flags(cap, x0, xs[..|xs| - 1]) + [Seen(cap, x0, xs) >= UNIT]
  }

  lemma {:induction false} FlagsPrefix(cap: int, x0: int, xs: seq<int>, k: nat)
    requires k <= |xs|
    ensures Flags(cap, x0, xs[..k]) == Flags(cap, x0, xs)[..k]
  {
    if k < |xs| {
      var before := xs[..|xs| - 1];
      FlagsPrefix(cap, x0, before, k);
      assert before[..k] == xs[..k];
    } else {
      assert xs[..k] == xs;
    }
  }

  /** What window i..last could still spend before the last take. */
  function Spare(cap: int, xs: seq<int>, flags: seq<bool>, i: nat): int
    requires i < |xs| == |flags|
  {
    cap + xs[|xs| - 1] - xs[i] - Cost(Count(flags, i, |xs| - 1))
  }

  lemma SpareStep(cap: int, xs: seq<int>, flags: seq<bool>, i: nat)
    requires i + 1 < |xs| == |flags|
    ensures
      var n := |xs| - 1;
      Spare(cap, xs, flags, i)
        == Spare(cap, xs[..n], flags[..n], i) - (if flags[n - 1] then UNIT else 0) + xs[n] - xs[n - 1]
  {
    var n := |xs| - 1;
    CountPrefix(flags, n, i, n - 1);
  }

  /** The fill seen by the last take, in closed form: the least spare over all windows
      that end at it. */
  lemma {:induction false} SeenClosedForm(cap: int, x0: int, xs: seq<int>) returns (w: nat)
    requires xs != [] && Sorted(xs) && x0 <= xs[0]
    ensures w < |xs| && Seen(cap, x0, xs) == Spare(cap, xs, Flags(cap, x0, xs), w)
    ensures forall i :: 0 <= i < |xs| ==> Seen(cap, x0, xs) <= Spare(cap, xs, Flags(cap, x0, xs), i)
  {
    var flags := Flags(cap, x0, xs);
    var n := |xs| - 1;
    if n == 0 {
      w := 0;
    } else {
      var before := xs[..n];
      FlagsPrefix(cap, x0, xs, n);
      w := SeenClosedForm(cap, x0, before);
      assert flags[n - 1] == (Seen(cap, x0, before) >= UNIT);
      forall i | 0 <= i < n
        ensures Spare(cap, xs, flags, i) >= Left(cap, x0, before) + xs[n] - xs[n - 1]
      {
        SpareStep(cap, xs, flags, i);
      }
      SpareStep(cap, xs, flags, w);
      assert Spare(cap, xs, flags, n) == cap;
      if Left(cap, x0, before) + xs[n] - xs[n - 1] >= cap {
        w := n;
      }
    }
  }

  /** Whether window i..j, on top of what it already admitted, can pay for take j. */
  predicate Room(cap: int, xs: seq<int>, flags: seq<bool>, i: nat, j: nat)
    requires i <= j < |xs| == |flags|
  {
    Cost(Count(flags, i, j) + 1) <= cap + xs[j] - xs[i]
  }

  lemma SpareIsRoom(cap: int, xs: seq<int>, flags: seq<bool>, i: nat, j: nat)
    requires i <= j < |xs| == |flags|
    ensures Spare(cap, xs[..j + 1], flags[..j + 1], i) >= UNIT <==> Room(cap, xs, flags, i, j)
  {
    CountPrefix(flags, j + 1, i, j);
  }

  lemma FlagIffRoom(cap: int, x0: int, xs: seq<int>, j: nat)
    requires j < |xs| && Sorted(xs) && x0 <= xs[0]
    ensures Flags(cap, x0, xs)[j] <==> forall i :: 0 <= i <= j ==> Room(cap, xs, Flags(cap, x0, xs), i, j)
  {
    var flags := Flags(cap, x0, xs);
    FlagsPrefix(cap, x0, xs, j + 1);
    var w := SeenClosedForm(cap, x0, xs[..j + 1]);
    SpareIsRoom(cap, xs, flags, w, j);
    if flags[j] {
      forall i | 0 <= i <= j ensures Room(cap, xs, flags, i, j) {
        SpareIsRoom(cap, xs, flags, i, j);
      }
    }
  }

  lemma {:induction false} FlagsBound(cap: nat, x0: int, xs: seq<int>, i: nat, j: nat)
    requires i <= j < |xs| && Sorted(xs) && x0 <= xs[0]
    ensures Cost(Count(Flags(cap, x0, xs), i, j + 1)) <= cap + xs[j] - xs[i]
  {
    var flags := Flags(cap, x0, xs);
    if flags[j] {
      FlagIffRoom(cap, x0, xs, j);
      assert Room(cap, xs, flags, i, j);
    } else if i < j {
      FlagsBound(cap, x0, xs, i, j - 1);
    }
  }

  // ----- Traces of takes on one bucket -----

  /** The bucket after a take at each instant of `ts`, in order. */
  function After(l: Limits, b: Level, ts: seq<int>): Level {
    if ts == [] then b
    else TakeStep(l, After(l, b, ts[..|ts| - 1]), ts[|ts| - 1]).0
  }

  /** Which takes of `ts` the bucket admits. */
  function Admitted(l: Limits, b: Level, ts: seq<int>): (adm: seq<bool>)
    ensures |adm| == |ts|
  {
    if ts == [] then []
    else
      var before := ts[..|ts| - 1];
      Admitted(l, b, before) + [TakeStep(l, After(l, b, before), ts[|ts| - 1]).1.Allowed?]
  }

  /** The trace read off the bucket's accrual clock. */
  function Readings(l: Limits, ts: seq<int>): (xs: seq<int>)
    ensures |xs| == |ts|
    ensures forall i :: 0 <= i < |ts| ==> xs[i] == l.rpm * ts[i]
  {
    seq(|ts|, i requires 0 <= i < |ts| => l.rpm * ts[i])
  }

  lemma Accrual(l: Limits, from: int, to: int)
    ensures l.rpm * (to - from) == l.rpm * to - l.rpm * from
    ensures from <= to ==> l.rpm * from <= l.rpm * to
  {
  }

  lemma ReadingsSorted(l: Limits, t0: int, ts: seq<int>)
    requires Sorted(ts) && (ts != [] ==> t0 <= ts[0])
    ensures Sorted(Readings(l, ts)) && (ts != [] ==> l.rpm * t0 <= Readings(l, ts)[0])
  {
    forall i, j | 0 <= i <= j < |ts| ensures Readings(l, ts)[i] <= Readings(l, ts)[j] {
      Accrual(l, ts[i], ts[j]);
    }
    if ts != [] {
      Accrual(l, t0, ts[0]);
    }
  }

  /** The bucket and the accrual clock tell the same story. */
  lemma {:induction false} BucketFollowsReadings(l: Limits, t0: int, ts: seq<int>)
    ensures After(l, Full(l, t0), ts) ==
            Level(Left(Capacity(l), l.rpm * t0, Readings(l, ts)), if ts == [] then t0 else ts[|ts| - 1])
    ensures Admitted(l, Full(l, t0), ts) == Flags(Capacity(l), l.rpm * t0, Readings(l, ts))
  {
    if ts != [] {
      var n := |ts| - 1;
      BucketFollowsReadings(l, t0, ts[..n]);
      assert Readings(l, ts)[..n] == Readings(l, ts[..n]);
      Accrual(l, if n == 0 then t0 else ts[n - 1], ts[n]);
    }
  }

  /** The room a window that opens at `from` leaves at `to`: burst plus what accrues between. */
  function Allowance(l: Limits, from: int, to: int): int {
    Capacity(l) + l.rpm * (to - from)
  }

  /** Window i..j can still pay for take j, on top of what `adm` lets into it before. */
  predicate Affords(l: Limits, ts: seq<int>, adm: seq<bool>, i: nat, j: nat)
    requires i <= j < |ts| == |adm|
  {
    Cost(Count(adm, i, j) + 1) <= Allowance(l, ts[i], ts[j])
  }

  /** A take is admitted exactly when every window ending at it still has room for one more. */
  lemma AdmittedExactly(l: Limits, t0: int, ts: seq<int>, j: nat)
    requires j < |ts| && Sorted(ts) && t0 <= ts[0]
    ensures
      var adm := Admitted(l, Full(l, t0), ts);
      adm[j] <==> forall i :: 0 <= i <= j ==> Affords(l, ts, adm, i, j)
  {
    var adm := Admitted(l, Full(l, t0), ts);
    BucketFollowsReadings(l, t0, ts);
    ReadingsSorted(l, t0, ts);
    FlagIffRoom(Capacity(l), l.rpm * t0, Readings(l, ts), j);
    forall i | 0 <= i <= j
      ensures Affords(l, ts, adm, i, j)
          <==> Room(Capacity(l), Readings(l, ts), adm, i, j)
    {
    }
  }

  /** On every trace, conforming or not, what is admitted in a window stays within its allowance. */
  lemma WindowBound(l: Limits, t0: int, ts: seq<int>, i: nat, j: nat)
    requires i <= j < |ts| && Sorted(ts) && t0 <= ts[0]
    ensures Cost(Count(Admitted(l, Full(l, t0), ts), i, j + 1)) <= Allowance(l, ts[i], ts[j])
  {
    BucketFollowsReadings(l, t0, ts);
    ReadingsSorted(l, t0, ts);
    FlagsBound(Capacity(l), l.rpm * t0, Readings(l, ts), i, j);
  }

  /** A trace conforms when no window of it asks for more than its allowance. */
  predicate Conforming(l: Limits, ts: seq<int>) {
    forall i, j :: 0 <= i <= j < |ts| ==> WithinAllowance(l, ts, i, j)
  }

  predicate WithinAllowance(l: Limits, ts: seq<int>, i: nat, j: nat)
    requires i <= j < |ts|
  {
    Cost(j - i + 1) <= Allowance(l, ts[i], ts[j])
  }

  lemma {:induction false} ConformingAdmits(l: Limits, t0: int, ts: seq<int>, j: nat)
    requires j <= |ts| && Sorted(ts) && (ts != [] ==> t0 <= ts[0]) && Conforming(l, ts)
    ensures forall k :: 0 <= k < j ==> Admitted(l, Full(l, t0), ts)[k]
  {
    if j > 0 {
      var adm := Admitted(l, Full(l, t0), ts);
      var last := j - 1;
      ConformingAdmits(l, t0, ts, last);
      forall i | 0 <= i <= last
        ensures Affords(l, ts, adm, i, last)
      {
        CountAll(adm, i, last);
        assert WithinAllowance(l, ts, i, last);
      }
      AdmittedExactly(l, t0, ts, last);
    }
  }

  predicate All(flags: seq<bool>) {
    forall k :: 0 <= k < |flags| ==> flags[k]
  }

  lemma AllAdmittedFits(l: Limits, t0: int, ts: seq<int>)
    requires Sorted(ts) && (ts != [] ==> t0 <= ts[0]) && All(Admitted(l, Full(l, t0), ts))
    ensures Conforming(l, ts)
  {
    var adm := Admitted(l, Full(l, t0), ts);
    forall i, j | 0 <= i <= j < |ts|
      ensures WithinAllowance(l, ts, i, j)
    {
      WindowBound(l, t0, ts, i, j);
      CountAll(adm, i, j + 1);
    }
  }

  /** The bucket refuses nothing exactly on the conforming traces. */
  lemma NothingDeniedIffConforming(l: Limits, t0: int, ts: seq<int>)
    requires Sorted(ts) && (ts != [] ==> t0 <= ts[0])
    ensures All(Admitted(l, Full(l, t0), ts)) <==> Conforming(l, ts)
  {
    if Conforming(l, ts) {
      ConformingAdmits(l, t0, ts, |ts|);
    } else if All(Admitted(l, Full(l, t0), ts)) {
      AllAdmittedFits(l, t0, ts);
    }
  }

  /** How many of the first k takes were admitted at an instant of [from, to]. */
  function CountBetween(ts: seq<int>, flags: seq<bool>, from: int, to: int, k: nat): nat
    requires k <= |ts| == |flags|
  {
    if k == 0 then 0
    else CountBetween(ts, flags, from, to, k - 1) + (if flags[k - 1] && from <= ts[k - 1] <= to then 1 else 0)
  }

  /** The takes of a time window are consecutive takes of the trace. */
  lemma {:induction false} BetweenIsConsecutive(ts: seq<int>, flags: seq<bool>, from: int, to: int, k: nat)
    returns (i: nat, j: nat)
    requires k <= |ts| == |flags| && Sorted(ts) && from <= to
    ensures i <= j <= k
    ensures CountBetween(ts, flags, from, to, k) == Count(flags, i, j)
    ensures forall m :: i <= m < j ==> from <= ts[m] <= to
    ensures j < k ==> to < ts[j]
    ensures i == j == k ==> forall m :: 0 <= m < k ==> ts[m] < from
  {
    if k == 0 {
      return 0, 0;
    }
    i, j := BetweenIsConsecutive(ts, flags, from, to, k - 1);
    if j == k - 1 && ts[k - 1] <= to {
      if ts[k - 1] < from {
        i, j := k, k;
      } else {
        j := k;
      }
    }
  }

  lemma AllowanceGrows(l: Limits, from: int, from': int, to': int, to: int)
    requires from <= from' <= to' <= to
    ensures 0 <= Allowance(l, from', to') <= Allowance(l, from, to)
  {
    assert l.rpm * (to' - from') <= l.rpm * (to - from);
  }

  /** In any stretch of time the bucket admits at most its burst plus what the stretch accrues. */
  lemma AdmissionsInTimeWindow(l: Limits, t0: int, ts: seq<int>, from: int, to: int)
    requires Sorted(ts) && (ts != [] ==> t0 <= ts[0]) && from <= to
    ensures Cost(CountBetween(ts, Admitted(l, Full(l, t0), ts), from, to, |ts|)) <= Allowance(l, from, to)
  {
    var adm := Admitted(l, Full(l, t0), ts);
    var i, j := BetweenIsConsecutive(ts, adm, from, to, |ts|);
    ConsecutiveBound(l, t0, ts, from, to, i, j);
  }

  lemma ConsecutiveBound(l: Limits, t0: int, ts: seq<int>, from: int, to: int, i: nat, j: nat)
    requires i <= j <= |ts| && Sorted(ts) && (ts != [] ==> t0 <= ts[0]) && from <= to
    requires forall m :: i <= m < j ==> from <= ts[m] <= to
    ensures Cost(Count(Admitted(l, Full(l, t0), ts), i, j)) <= Allowance(l, from, to)
  {
    if i < j {
      WindowBound(l, t0, ts, i, j - 1);
      AllowanceGrows(l, from, ts[i], ts[j - 1], to);
    } else {
      AllowanceGrows(l, from, from, from, to);
    }
  }

  /** A selection of the takes of `ts` that itself respects every window. */
  predicate Respects(l: Limits, ts: seq<int>, pick: seq<bool>)
    requires |pick| == |ts|
  {
    forall i, j :: 0 <= i <= j < |ts| ==> SpendsWithin(l, ts, pick, i, j)
  }

  predicate SpendsWithin(l: Limits, ts: seq<int>, pick: seq<bool>, i: nat, j: nat)
    requires i <= j < |ts| == |pick|
  {
    Cost(Count(pick, i, j + 1)) <= Allowance(l, ts[i], ts[j])
  }

  /** No policy that respects every window admits more of any prefix than the bucket does. */
  lemma {:induction false} BucketIsOptimal(l: Limits, t0: int, ts: seq<int>, pick: seq<bool>, k: nat)
    requires k <= |ts| == |pick| && Sorted(ts) && (ts != [] ==> t0 <= ts[0])
    requires Respects(l, ts, pick)
    ensures Count(pick, 0, k) <= Count(Admitted(l, Full(l, t0), ts), 0, k)
  {
    var adm := Admitted(l, Full(l, t0), ts);
    if k > 0 {
      var j := k - 1;
      if adm[j] {
        BucketIsOptimal(l, t0, ts, pick, j);
      } else {
        var i := FullWindow(l, t0, ts, j);
        assert SpendsWithin(l, ts, pick, i, j);
        BucketIsOptimal(l, t0, ts, pick, i);
        CountSplit(pick, 0, i, k);
        CountSplit(adm, 0, i, j);
      }
    }
  }

  /** A denied take has a window to blame. */
  lemma FullWindow(l: Limits, t0: int, ts: seq<int>, j: nat) returns (i: nat)
    requires j < |ts| && Sorted(ts) && t0 <= ts[0]
    requires !Admitted(l, Full(l, t0), ts)[j]
    ensures i <= j && Allowance(l, ts[i], ts[j]) < Cost(Count(Admitted(l, Full(l, t0), ts), i, j) + 1)
  {
    AdmittedExactly(l, t0, ts, j);
    i :| 0 <= i <= j && !Affords(l, ts, Admitted(l, Full(l, t0), ts), i, j);
  }

  // ----- Denied takes and the announced retry time -----

  /** The decision on take j, with the wait it announces when it denies. */
  function DecisionAt(l: Limits, b: Level, ts: seq<int>, j: nat): Decision
    requires j < |ts|
  {
    TakeStep(l, After(l, b, ts[..j]), ts[j]).1
  }

  /** Refilling in two stages loses nothing. */
  lemma RefillTwice(l: Limits, b: Level, t: int, t': int)
    requires t <= t'
    ensures Refilled(l, Refilled(l, b, t), t') == Refilled(l, b, t')
  {
    Accrual(l, b.at, t);
    Accrual(l, t, t');
    Accrual(l, b.at, t');
  }

  /** A bucket that was full once and left alone is still full. */
  lemma FullStaysFull(l: Limits, t: int, t': int, now: int)
    requires t <= now && t' <= now
    ensures Refilled(l, Full(l, t), now) == Refilled(l, Full(l, t'), now) == Full(l, now)
  {
    Accrual(l, t, now);
    Accrual(l, t', now);
  }

  /** A run of denied takes leaves the bucket as if only the first had been made. */
  lemma {:induction false} DeniedRun(l: Limits, b: Level, ts: seq<int>, j: nat, k: nat)
    requires j < k <= |ts| && Sorted(ts)
    requires forall m :: j <= m < k ==> DecisionAt(l, b, ts, m).Denied?
    ensures After(l, b, ts[..k]) == Refilled(l, After(l, b, ts[..j + 1]), ts[k - 1])
  {
    assert ts[..k][..k - 1] == ts[..k - 1];
    assert ts[..j + 1][..j] == ts[..j];
    if k == j + 1 {
      RefillTwice(l, After(l, b, ts[..j]), ts[j], ts[j]);
    } else {
      assert DecisionAt(l, b, ts, k - 1).Denied?;
      DeniedRun(l, b, ts, j, k - 1);
      RefillTwice(l, After(l, b, ts[..j + 1]), ts[k - 2], ts[k - 1]);
    }
  }

  /** Units missing to a whole token just after take j. */
  function Missing(l: Limits, b: Level, ts: seq<int>, j: nat): int
    requires j < |ts|
  {
    UNIT - After(l, b, ts[..j + 1]).units
  }

  /** After a denial, and with nothing admitted since, the next admission happens exactly
      when the missing units have accrued, and never on a bucket of burst zero. */
  lemma NextAdmissionExactly(l: Limits, b: Level, ts: seq<int>, j: nat, k: nat)
    requires j < k < |ts| && Sorted(ts)
    requires forall m :: j <= m < k ==> DecisionAt(l, b, ts, m).Denied?
    ensures DecisionAt(l, b, ts, k).Allowed? <==> l.burst >= 1 && Missing(l, b, ts, j) <= l.rpm * (ts[k] - ts[j])
  {
    DeniedRun(l, b, ts, j, k);
    RefillTwice(l, After(l, b, ts[..j + 1]), ts[k - 1], ts[k]);
    assert ts[..j + 1][..j] == ts[..j];
    assert DecisionAt(l, b, ts, j).Denied?;
  }

  lemma MulMonotone(rpm: int, a: int, b: int)
    requires rpm >= 0 && a <= b
    ensures rpm * a <= rpm * b
  {
  }

  lemma WaitBounds(rpm: int, missing: int, wait: int, elapsed: int)
    requires rpm >= 1 && wait == missing / rpm
    ensures elapsed < wait ==> rpm * elapsed < missing
    ensures wait < elapsed ==> missing < rpm * elapsed
    ensures elapsed == wait ==> (missing <= rpm * elapsed <==> missing == rpm * wait)
  {
    var floor := rpm * wait;
    assert missing == floor + missing % rpm;
    if elapsed < wait {
      MulMonotone(rpm, elapsed, wait - 1);
      assert rpm * (wait - 1) == floor - rpm;
    } else if wait < elapsed {
      MulMonotone(rpm, wait + 1, elapsed);
      assert rpm * (wait + 1) == floor + rpm;
    }
  }

  lemma DeniedWait(l: Limits, b: Level, ts: seq<int>, j: nat) returns (wait: int)
    requires j < |ts| && l.rpm >= 1 && DecisionAt(l, b, ts, j).Denied?
    ensures DecisionAt(l, b, ts, j) == Denied(Some(wait))
    ensures wait == Missing(l, b, ts, j) / l.rpm >= 0
  {
    assert ts[..j + 1][..j] == ts[..j];
    wait := Missing(l, b, ts, j) / l.rpm;
  }

  /** Every take strictly inside the announced wait is denied. */
  lemma {:induction false} DeniedInsideWait(l: Limits, b: Level, ts: seq<int>, j: nat, k: nat, wait: int)
    requires j < k < |ts| && Sorted(ts) && l.rpm >= 1
    requires DecisionAt(l, b, ts, j) == Denied(Some(wait)) && ts[k] < ts[j] + wait
    ensures forall m :: j <= m <= k ==> DecisionAt(l, b, ts, m).Denied?
  {
    if j + 1 < k {
      DeniedInsideWait(l, b, ts, j, k - 1, wait);
    }
    var w := DeniedWait(l, b, ts, j);
    NextAdmissionExactly(l, b, ts, j, k);
    WaitBounds(l.rpm, Missing(l, b, ts, j), wait, ts[k] - ts[j]);
  }

  /** The announced seconds are enough: with nothing admitted in between, a take at or after
      them succeeds, however many denied takes were made meanwhile. */
  lemma RetryAfterSuffices(l: Limits, b: Level, ts: seq<int>, j: nat, k: nat, wait: int)
    requires j < k < |ts| && Sorted(ts) && l.rpm >= 1 && l.burst >= 1
    requires DecisionAt(l, b, ts, j) == Denied(Some(wait))
    requires forall m :: j < m < k ==> DecisionAt(l, b, ts, m).Denied?
    requires ts[j] + RetrySeconds(wait) * NANOS_PER_SECOND <= ts[k]
    ensures DecisionAt(l, b, ts, k).Allowed?
  {
    var w := DeniedWait(l, b, ts, j);
    NextAdmissionExactly(l, b, ts, j, k);
    assert wait < RetrySeconds(wait) * NANOS_PER_SECOND;
    WaitBounds(l.rpm, Missing(l, b, ts, j), wait, ts[k] - ts[j]);
  }

  /** One second less is too early, except when the missing units accrue in exactly that
      many whole seconds; the announcement is then one second longer than needed. */
  lemma RetryAfterIsTight(l: Limits, b: Level, ts: seq<int>, j: nat, k: nat, wait: int)
    requires j < k < |ts| && Sorted(ts) && l.rpm >= 1 && l.burst >= 1
    requires DecisionAt(l, b, ts, j) == Denied(Some(wait))
    requires forall m :: j < m < k ==> DecisionAt(l, b, ts, m).Denied?
    requires ts[k] == ts[j] + (RetrySeconds(wait) - 1) * NANOS_PER_SECOND
    ensures DecisionAt(l, b, ts, k).Allowed? <==>
            wait % NANOS_PER_SECOND == 0 && Missing(l, b, ts, j) == l.rpm * wait
  {
    var w := DeniedWait(l, b, ts, j);
    NextAdmissionExactly(l, b, ts, j, k);
    WaitBounds(l.rpm, Missing(l, b, ts, j), wait, ts[k] - ts[j]);
  }

  /** Such a wait exists: one request a second, a second request at once, and it is told to wait
      two seconds where one is enough. */
  lemma SpareSecond()
    ensures
      var l, ts := Limits(60, 1), [0, 0, NANOS_PER_SECOND];
      && DecisionAt(l, Full(l, 0), ts, 1) == Denied(Some(NANOS_PER_SECOND)) && RetrySeconds(NANOS_PER_SECOND) == 2
      && DecisionAt(l, Full(l, 0), ts, 2).Allowed?
  {
    var l, ts := Limits(60, 1), [0, 0, NANOS_PER_SECOND];
    assert ts[..1] == [0] && ts[..2] == [0, 0] && [0, 0][..1] == [0] && [0][..0] == [];
    assert After(l, Full(l, 0), [0]) == Level(0, 0);
    assert After(l, Full(l, 0), [0, 0]) == Level(0, 0);
  }

  /** The takes of a trace whose flag is set. */
  function Keep<T>(ts: seq<T>, keep: seq<bool>): (kept: seq<T>)
    requires |ts| == |keep|
  {
    if ts == [] then []
    else
      var n := |ts| - 1;
      Keep(ts[..n], keep[..n]) + (if keep[n] then [ts[n]] else [])
  }

  lemma OneMore(l: Limits, b: Level, ts: seq<int>, t: int)
    ensures Admitted(l, b, ts + [t]) == Admitted(l, b, ts) + [TakeStep(l, After(l, b, ts), t).1.Allowed?]
    ensures After(l, b, ts + [t]) == TakeStep(l, After(l, b, ts), t).0
  {
    assert (ts + [t])[..|ts|] == ts;
  }

  /** A take sees only the refilled level, and a denied one leaves just that. */
  lemma TakeSeesRefill(l: Limits, a: Level, b: Level, now: int)
    ensures Refilled(l, a, now) == Refilled(l, b, now) ==> TakeStep(l, a, now) == TakeStep(l, b, now)
    ensures TakeStep(l, a, now).1.Denied? ==> TakeStep(l, a, now).0 == Refilled(l, a, now)
  {
  }

  lemma KeepStep<T>(ts: seq<T>, keep: seq<bool>)
    requires |ts| == |keep| && ts != []
    ensures
      var n := |ts| - 1;
      Keep(ts, keep) == if keep[n] then Keep(ts[..n], keep[..n]) + [ts[n]] else Keep(ts[..n], keep[..n])
  {
  }

  /** Dropping any denied takes changes no decision on the takes that remain. */
  lemma {:induction false} DeniedTakesAreInert(l: Limits, b: Level, ts: seq<int>, keep: seq<bool>, now: int)
    requires |keep| == |ts| && Sorted(ts) && (ts != [] ==> ts[|ts| - 1] <= now)
    requires forall j :: 0 <= j < |ts| && Admitted(l, b, ts)[j] ==> keep[j]
    ensures Admitted(l, b, Keep(ts, keep)) == Keep(Admitted(l, b, ts), keep)
    ensures Refilled(l, After(l, b, Keep(ts, keep)), now) == Refilled(l, After(l, b, ts), now)
  {
    if ts != [] {
      hide TakeStep, Admitted, After, Refilled, Keep;
      var n := |ts| - 1;
      var before, at, adm := ts[..n], ts[n], Admitted(l, b, ts);
      var kept := Keep(before, keep[..n]);
      assert ts == before + [at];
      OneMore(l, b, before, at);
      assert Admitted(l, b, before) == adm[..n];
      KeepStep(ts, keep);
      KeepStep(adm, keep);
      DeniedTakesAreInert(l, b, before, keep[..n], at);
      TakeSeesRefill(l, After(l, b, before), After(l, b, kept), at);
      if keep[n] {
        OneMore(l, b, kept, at);
      } else {
        DeniedTakesAreInert(l, b, before, keep[..n], now);
        RefillTwice(l, After(l, b, before), at, now);
      }
    }
  }
}
