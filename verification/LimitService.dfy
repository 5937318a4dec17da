/** When two limits serve alike: which configurations no trace of takes can tell apart, on a
    clock of whole nanoseconds.
 */
module LimitService {
  import opened TokenBucket

  /** From a full bucket, the two limits admit the same takes of every trace. */
  ghost predicate SameService(l: Limits, m: Limits) {
    forall t0, ts :: InOrder(t0, ts) ==> Admitted(l, Full(l, t0), ts) == Admitted(m, Full(m, t0), ts)
  }

  predicate InOrder(t0: int, ts: seq<int>) {
    Sorted(ts) && (ts != [] ==> t0 <= ts[0])
  }

  /** Every nanosecond brings all tokens of the burst but one, and a surplus. */
  predicate Saturating(l: Limits) {
    l.burst >= 1 && l.rpm > Cost(l.burst - 1)
  }

  function Surplus(l: Limits): (e: int)
    requires Saturating(l)
    ensures e >= 1
  {
    l.rpm - Cost(l.burst - 1)
  }

  /** The nanoseconds after which the surplus amounts to a token. */
  function Ticks(l: Limits): (k: nat)
    requires Saturating(l)
  {
    (UNIT + Surplus(l) - 1) / Surplus(l)
  }

  predicate Alike(l: Limits, m: Limits) {
    l.burst == m.burst &&
    (l.burst == 0 || l.rpm == m.rpm || (Saturating(l) && Saturating(m) && Ticks(l) == Ticks(m)))
  }

  // ----- Alike limits serve alike -----

  lemma ProductUpTo(a: int, b: int, e: int)
    requires a <= b && e >= 0
    ensures a * e <= b * e
  {
  }

  /** j ticks of surplus make a token exactly from Ticks on. */
  lemma TicksExactly(l: Limits, j: nat)
    requires Saturating(l)
    ensures j * Surplus(l) >= UNIT <==> j >= Ticks(l)
    ensures Ticks(l) >= 1
  {
    var e, k := Surplus(l), Ticks(l);
    CeilingIs(UNIT, e);
    if j >= k {
      ProductUpTo(k, j, e);
    } else {
      ProductUpTo(j, k - 1, e);
    }
  }

  lemma CeilingIs(a: int, d: int)
    requires a >= 0 && d >= 1
    ensures
      var k := (a + d - 1) / d;
      k >= 0 && k * d >= a && (k - 1) * d < a && (a >= 1 ==> k >= 1)
  {
    var k := (a + d - 1) / d;
    assert a + d - 1 == d * k + (a + d - 1) % d;
    assert (k - 1) * d == k * d - d;
    if k < 0 {
      ProductUpTo(k, -1, d);
    }
    if k == 0 {
      assert k * d == 0;
    }
  }

  /** A level of q tokens and j ticks of surplus. */
  predicate Shows(l: Limits, units: int, q: nat, j: nat)
    requires Saturating(l)
  {
    units == Cost(q) + j * Surplus(l) && j < Ticks(l) && q <= l.burst && (q == l.burst ==> j == 0)
  }

  function TokensAfter(burst: nat, k: nat, q: nat, j: nat, d: nat): (nat, nat)
    requires burst >= 1
  {
    if d == 0 then (q, j)
    else if q >= 1 || j + d >= k || (burst >= 2 && d >= 2) then (burst, 0)
    else (burst - 1, j + d)
  }

  /** What d nanoseconds bring depends on the burst and the ticks alone. */
  lemma RefillShows(l: Limits, b: Level, now: int, q: nat, j: nat)
    requires Saturating(l) && Shows(l, b.units, q, j) && b.at <= now
    ensures
      var (q', j') := TokensAfter(l.burst, Ticks(l), q, j, now - b.at);
      Shows(l, Refilled(l, b, now).units, q', j')
  {
    var d, e, k := now - b.at, Surplus(l), Ticks(l);
    var base := Cost(l.burst - 1);
    TicksExactly(l, 0);
    TicksExactly(l, j);
    TicksExactly(l, j + d);
    assert l.rpm * d == base * d + e * d;
    assert (j + d) * e == j * e + e * d;
    if d >= 1 {
      ProductUpTo(1, d, base);
      ProductUpTo(1, d, e);
      ProductUpTo(0, j, e);
      if l.burst >= 2 && d >= 2 {
        ProductUpTo(2, d, base);
      }
      if l.burst == 1 {
        assert base * d == 0;
      }
    } else {
      assert l.rpm * d == 0;
      ProductUpTo(0, j, e);
    }
  }

  /** A take is admitted exactly when a whole token shows, and spends it. */
  lemma TakeShows(l: Limits, b: Level, now: int, q: nat, j: nat)
    requires Saturating(l) && Shows(l, b.units, q, j) && b.at <= now
    ensures
      var (q', j') := TokensAfter(l.burst, Ticks(l), q, j, now - b.at);
      var (after, d) := TakeStep(l, b, now);
      Shows(l, after.units, Spent(q'), j') && (d.Allowed? <==> q' >= 1)
  {
    hide TokensAfter;
    var (q', j') := TokensAfter(l.burst, Ticks(l), q, j, now - b.at);
    RefillShows(l, b, now, q, j);
    TicksExactly(l, j');
    ProductUpTo(0, j', Surplus(l));
  }

  function Spent(q: nat): nat {
    if q >= 1 then q - 1 else q
  }

  lemma {:induction false} SaturatingTwins(l: Limits, m: Limits, t0: int, ts: seq<int>) returns (q: nat, j: nat)
    requires InOrder(t0, ts)
    requires l.burst == m.burst && Saturating(l) && Saturating(m) && Ticks(l) == Ticks(m)
    ensures Shows(l, After(l, Full(l, t0), ts).units, q, j)
    ensures Shows(m, After(m, Full(m, t0), ts).units, q, j)
    ensures Admitted(l, Full(l, t0), ts) == Admitted(m, Full(m, t0), ts)
    decreases |ts|
  {
    if ts == [] {
      return l.burst, 0;
    }
    hide Shows, TokensAfter, TakeStep, Ticks, Saturating;
    var n := |ts| - 1;
    var p, i := SaturatingTwins(l, m, t0, ts[..n]);
    var b, c := After(l, Full(l, t0), ts[..n]), After(m, Full(m, t0), ts[..n]);
    TakeShows(l, b, ts[n], p, i);
    TakeShows(m, c, ts[n], p, i);
    var (q', j') := TokensAfter(l.burst, Ticks(l), p, i, ts[n] - b.at);
    q, j := Spent(q'), j';
  }

  lemma {:induction false} BurstZeroDenies(l: Limits, t0: int, ts: seq<int>)
    requires l.burst == 0
    ensures forall i :: 0 <= i < |ts| ==> !Admitted(l, Full(l, t0), ts)[i]
  {
    if ts != [] {
      BurstZeroDenies(l, t0, ts[..|ts| - 1]);
    }
  }

  lemma AlikeServesSame(l: Limits, m: Limits, t0: int, ts: seq<int>)
    requires Alike(l, m) && InOrder(t0, ts)
    ensures Admitted(l, Full(l, t0), ts) == Admitted(m, Full(m, t0), ts)
  {
    if l.burst == 0 {
      BurstZeroDenies(l, t0, ts);
      BurstZeroDenies(m, t0, ts);
    } else if l.rpm != m.rpm {
      var q, j := SaturatingTwins(l, m, t0, ts);
    }
  }

  // ----- Limits that are not alike are told apart -----

  /** The trace admitted in full by one and not by the other. */
  predicate Tells(ts: seq<int>, l: Limits, m: Limits) {
    InOrder(0, ts) && Conforming(l, ts) && !Conforming(m, ts)
  }

  lemma TellsApart(ts: seq<int>, l: Limits, m: Limits)
    requires Tells(ts, l, m)
    ensures !SameService(l, m)
  {
    NothingDeniedIffConforming(l, 0, ts);
    NothingDeniedIffConforming(m, 0, ts);
    assert InOrder(0, ts);
  }

  /** One more request at once than the smaller burst. */
  lemma BurstTells(l: Limits, m: Limits) returns (ts: seq<int>)
    requires m.burst < l.burst
    ensures Tells(ts, l, m)
  {
    var n := m.burst + 1;
    ts := seq(n, _ => 0);
    forall i, j | 0 <= i <= j < |ts| ensures WithinAllowance(l, ts, i, j) {
      assert l.rpm * (ts[j] - ts[i]) == 0;
    }
    assert m.rpm * (ts[n - 1] - ts[0]) == 0;
    assert !WithinAllowance(m, ts, 0, n - 1);
  }

  /** The burst at once, and then each token as soon as `rate` has brought it. */
  function PacedAt(burst: nat, rate: nat, i: nat): int
    requires rate >= 1
  {
    if i < burst then 0 else (Cost(i - burst + 1) + rate - 1) / rate
  }

  lemma PacedIs(burst: nat, rate: nat, i: nat)
    requires rate >= 1
    ensures
      var t := PacedAt(burst, rate, i);
      && t >= 0
      && (i >= burst ==> Cost(i - burst + 1) <= rate * t <= Cost(i - burst + 1) + rate - 1)
  {
    if i >= burst {
      CeilingIs(Cost(i - burst + 1), rate);
      var t := PacedAt(burst, rate, i);
      assert (t - 1) * rate == rate * t - rate && t * rate == rate * t;
    }
  }

  function Paced(burst: nat, rate: nat, n: nat): (ts: seq<int>)
    requires rate >= 1
    ensures |ts| == n
  {
    seq(n, i requires 0 <= i < n => PacedAt(burst, rate, i))
  }

  lemma PacedInOrder(burst: nat, rate: nat, i: nat, j: nat)
    requires rate >= 1 && i <= j
    ensures PacedAt(burst, rate, i) <= PacedAt(burst, rate, j)
  {
    PacedIs(burst, rate, i);
    PacedIs(burst, rate, j);
    var s, t := PacedAt(burst, rate, i), PacedAt(burst, rate, j);
    if i >= burst {
      assert (s - 1) * rate == rate * s - rate && t * rate == rate * t;
      Cancel(s - 1, t, rate);
    }
  }

  lemma Cancel(a: int, b: int, e: int)
    requires e >= 1 && a * e < b * e
    ensures a < b
  {
    if b <= a {
      ProductUpTo(b, a, e);
    }
  }

  lemma PacedFits(l: Limits, rate: nat, i: nat, j: nat)
    requires 1 <= rate <= l.rpm && l.burst >= 1 && rate <= Cost(l.burst - 1) + 1 && i <= j
    ensures Cost(j - i + 1) <= Allowance(l, PacedAt(l.burst, rate, i), PacedAt(l.burst, rate, j))
  {
    var s, t := PacedAt(l.burst, rate, i), PacedAt(l.burst, rate, j);
    PacedIs(l.burst, rate, i);
    PacedIs(l.burst, rate, j);
    PacedInOrder(l.burst, rate, i, j);
    ProductUpTo(rate, l.rpm, t - s);
    assert rate * (t - s) == rate * t - rate * s;
    if i < l.burst {
      assert rate * s == 0;
    }
  }

  lemma PacedExceeds(m: Limits, rate: nat)
    requires m.rpm < rate
    ensures
      var n := m.rpm * rate + 1;
      m.rpm * PacedAt(m.burst, rate, m.burst + n - 1) < Cost(n)
  {
    var n := m.rpm * rate + 1;
    var t := PacedAt(m.burst, rate, m.burst + n - 1);
    PacedIs(m.burst, rate, m.burst + n - 1);
    if t < rate {
      ProductUpTo(t, rate - 1, m.rpm);
      assert m.rpm * t == t * m.rpm && (rate - 1) * m.rpm == m.rpm * rate - m.rpm;
    } else {
      ProductUpTo(m.rpm, rate - 1, t);
      assert (rate - 1) * t == rate * t - t;
    }
  }

  lemma RateTells(l: Limits, m: Limits) returns (ts: seq<int>)
    requires l.burst == m.burst >= 1 && m.rpm < l.rpm && !Saturating(m)
    ensures Tells(ts, l, m)
  {
    var rate := Min(l.rpm, Cost(l.burst - 1) + 1);
    var n := m.rpm * rate + 1;
    ts := Paced(l.burst, rate, l.burst + n);
    forall i, j | 0 <= i <= j < |ts| ensures ts[i] <= ts[j] && WithinAllowance(l, ts, i, j) {
      PacedInOrder(l.burst, rate, i, j);
      PacedFits(l, rate, i, j);
    }
    PacedExceeds(m, rate);
    assert !WithinAllowance(m, ts, 0, |ts| - 1);
  }

  // ----- Two saturating limits whose surplus makes a token at different ticks -----

  function Repeat(n: nat, t: int): (ts: seq<int>)
    ensures |ts| == n && forall i :: 0 <= i < n ==> ts[i] == t
  {
    seq(n, _ => t)
  }

  /** All takes of `ts` were admitted, and at t the bucket shows q tokens and j ticks. */
  ghost predicate Ready(l: Limits, ts: seq<int>, t: int, q: nat, j: nat)
    requires Saturating(l)
  {
    && InOrder(0, ts) && 0 <= t && (forall i :: 0 <= i < |ts| ==> ts[i] <= t)
    && All(Admitted(l, Full(l, 0), ts))
    && Shows(l, Refilled(l, After(l, Full(l, 0), ts), t).units, q, j)
  }

  lemma Granted(l: Limits, b: Level, t: int, q: nat, j: nat)
    requires Saturating(l) && Shows(l, Refilled(l, b, t).units, q, j) && q >= 1
    ensures TakeStep(l, b, t).1.Allowed? && Shows(l, Refilled(l, TakeStep(l, b, t).0, t).units, q - 1, j)
  {
    ProductUpTo(0, j, Surplus(l));
    assert l.rpm * 0 == 0;
  }

  lemma OneGranted(l: Limits, ts: seq<int>, t: int, q: nat, j: nat)
    requires Saturating(l) && Ready(l, ts, t, q, j) && q >= 1
    ensures Ready(l, ts + [t], t, q - 1, j)
  {
    hide Shows, Saturating, Refilled, TakeStep, Admitted, After;
    Granted(l, After(l, Full(l, 0), ts), t, q, j);
    OneMore(l, Full(l, 0), ts, t);
  }

  lemma ReadyConforms(l: Limits, ts: seq<int>, t: int, q: nat, j: nat)
    requires Saturating(l) && Ready(l, ts, t, q, j)
    ensures InOrder(0, ts) && Conforming(l, ts)
  {
    hide Shows, Conforming;
    NothingDeniedIffConforming(l, 0, ts);
  }

  lemma {:induction false} ManyGranted(l: Limits, ts: seq<int>, t: int, n: nat, q: nat, j: nat)
    requires Saturating(l) && Ready(l, ts, t, q, j) && n <= q
    ensures Ready(l, ts + Repeat(n, t), t, q - n, j)
    decreases n
  {
    hide Ready;
    if n == 0 {
      assert ts + Repeat(0, t) == ts;
    } else {
      ManyGranted(l, ts, t, n - 1, q, j);
      OneGranted(l, ts + Repeat(n - 1, t), t, q - n + 1, j);
      assert ts + Repeat(n - 1, t) + [t] == ts + Repeat(n, t);
    }
  }

  lemma NextTick(l: Limits, ts: seq<int>, t: int, q: nat, j: nat)
    requires Saturating(l) && Ready(l, ts, t, q, j)
    ensures
      var (q', j') := TokensAfter(l.burst, Ticks(l), q, j, 1);
      Ready(l, ts, t + 1, q', j')
  {
    hide TokensAfter, Shows;
    var b := After(l, Full(l, 0), ts);
    RefillTwice(l, b, t, t + 1);
    RefillShows(l, Refilled(l, b, t), t + 1, q, j);
  }

  /** The burst at once, then in each nanosecond what it brings in whole tokens. */
  function Drain(burst: nat, p: nat): seq<int>
    requires burst >= 1
  {
    if p == 0 then Repeat(burst, 0) else Drain(burst, p - 1) + Repeat(burst - 1, p)
  }

  lemma {:induction false} DrainLength(burst: nat, p: nat)
    requires burst >= 1
    ensures |Drain(burst, p)| == burst + p * (burst - 1)
    ensures Drain(burst, p)[0] == 0
  {
    if p > 0 {
      DrainLength(burst, p - 1);
      assert p * (burst - 1) == (p - 1) * (burst - 1) + (burst - 1);
    }
  }

  lemma {:induction false} DrainLeaves(l: Limits, p: nat)
    requires Saturating(l) && p < Ticks(l)
    ensures Ready(l, Drain(l.burst, p), p, 0, p)
  {
    hide Ready;
    if p == 0 {
      NothingTaken(l);
      ManyGranted(l, [], 0, l.burst, l.burst, 0);
      assert [] + Repeat(l.burst, 0) == Drain(l.burst, 0);
    } else {
      DrainLeaves(l, p - 1);
      NextTick(l, Drain(l.burst, p - 1), p - 1, 0, p - 1);
      ManyGranted(l, Drain(l.burst, p - 1), p, l.burst - 1, l.burst - 1, p);
    }
  }

  lemma NothingTaken(l: Limits)
    requires Saturating(l)
    ensures Ready(l, [], 0, l.burst, 0)
  {
    assert l.rpm * 0 == 0;
  }

  lemma DrainExceeds(m: Limits, k: nat, ts: seq<int>)
    requires Saturating(m) && k < Ticks(m)
    requires |ts| == m.burst + k * (m.burst - 1) + 1 && ts[0] == 0 && ts[|ts| - 1] == k
    ensures !Conforming(m, ts)
  {
    var base := m.burst - 1;
    TicksExactly(m, k);
    assert m.rpm * k == Cost(base) * k + Surplus(m) * k;
    assert Cost(base) * k == Cost(k * base);
    assert !WithinAllowance(m, ts, 0, |ts| - 1);
  }

  lemma TicksTell(l: Limits, m: Limits) returns (ts: seq<int>)
    requires l.burst == m.burst && Saturating(l) && Saturating(m) && Ticks(l) < Ticks(m)
    ensures Tells(ts, l, m)
  {
    hide Ready, Drain, Conforming, Ticks;
    var k := Ticks(l);
    TicksExactly(l, 0);
    var before := Drain(l.burst, k - 1);
    DrainLeaves(l, k - 1);
    NextTick(l, before, k - 1, 0, k - 1);
    ManyGranted(l, before, k, l.burst, l.burst, 0);
    ts := before + Repeat(l.burst, k);
    ReadyConforms(l, ts, k, 0, 0);
    DrainLength(l.burst, k - 1);
    assert k * (l.burst - 1) == (k - 1) * (l.burst - 1) + (l.burst - 1);
    DrainExceeds(m, k, ts);
  }

  // ----- The exact condition -----

  lemma UnlikeTells(l: Limits, m: Limits) returns (ts: seq<int>)
    requires !Alike(l, m)
    ensures Tells(ts, l, m) || Tells(ts, m, l)
  {
    if m.burst < l.burst {
      ts := BurstTells(l, m);
    } else if l.burst < m.burst {
      ts := BurstTells(m, l);
    } else if m.rpm < l.rpm && !Saturating(m) {
      ts := RateTells(l, m);
    } else if l.rpm < m.rpm && !Saturating(l) {
      ts := RateTells(m, l);
    } else if Ticks(l) < Ticks(m) {
      ts := TicksTell(l, m);
    } else {
      ts := TicksTell(m, l);
    }
  }

  /** Two limits cannot be told apart by any trace exactly when their bursts are equal and
      either the burst is zero, or the rates are equal, or both bring all tokens but one in
      each nanosecond and the surplus makes the last token at the same tick. */
  lemma SameServiceExactly(l: Limits, m: Limits)
    ensures SameService(l, m) <==> Alike(l, m)
  {
    if Alike(l, m) {
      forall t0, ts | InOrder(t0, ts)
        ensures Admitted(l, Full(l, t0), ts) == Admitted(m, Full(m, t0), ts)
      {
        AlikeServesSame(l, m, t0, ts);
      }
    } else {
      var ts := UnlikeTells(l, m);
      if Tells(ts, l, m) {
        TellsApart(ts, l, m);
      } else {
        TellsApart(ts, m, l);
      }
    }
  }

  // ----- At any time -----

  function Shifted(ts: seq<int>, t0: int): (s: seq<int>)
    ensures |s| == |ts|
  {
    seq(|ts|, i requires 0 <= i < |ts| => t0 + ts[i])
  }

  lemma ShiftedConforms(l: Limits, ts: seq<int>, t0: int)
    ensures Conforming(l, Shifted(ts, t0)) <==> Conforming(l, ts)
  {
    var s := Shifted(ts, t0);
    assert forall i, j :: 0 <= i <= j < |ts| ==> (WithinAllowance(l, s, i, j) <==> WithinAllowance(l, ts, i, j));
  }

  /** Whenever they start, limits that are not alike part on some trace. */
  lemma UnlikeFrom(l: Limits, m: Limits, t0: int) returns (s: seq<int>)
    requires !Alike(l, m)
    ensures s != [] && InOrder(t0, s) && Admitted(l, Full(l, t0), s) != Admitted(m, Full(m, t0), s)
  {
    var ts := UnlikeTells(l, m);
    s := Shifted(ts, t0);
    ShiftedConforms(l, ts, t0);
    ShiftedConforms(m, ts, t0);
    NothingDeniedIffConforming(l, t0, s);
    NothingDeniedIffConforming(m, t0, s);
  }
}
