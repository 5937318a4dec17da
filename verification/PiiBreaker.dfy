/** The PII client's circuit breaker: one stored failure time that overlapping scans set, clear
    and consult. Times are nanoseconds of a monotonic clock.
 */
module PiiBreaker {
  import opened Options

  const CB_TIMEOUT: nat := 30_000_000_000

  datatype ScanRequest = ScanRequest(agentID: string, direction: string, text: string)

  datatype ScanResponse = ScanResponse(decision: string, sanitizedText: string)

  /** What a call to the shield comes to: no reply, a reply that does not decode, or a verdict. */
  datatype Reply = Unreachable | Garbled | Verdict(response: ScanResponse)

  datatype ScanError = CircuitOpen | ShieldUnreachable | Undecodable

  datatype ScanResult = Ok(response: ScanResponse) | Err(error: ScanError)

  // ----- The pieces of one scan -----

  predicate Open(first: Option<int>, now: int) {
    first.Some? && now - first.value >= CB_TIMEOUT
  }

  function AfterReply(first: Option<int>, reply: Reply, now: int): Option<int> {
    if !reply.Unreachable? then None else if first.None? then Some(now) else first
  }

  /** The result of a scan that the open circuit cuts short. */
  function ShortResult(bypass: bool, text: string): ScanResult {
    if bypass then Ok(ScanResponse("allow", text)) else Err(CircuitOpen)
  }

  function ReplyResult(bypass: bool, text: string, reply: Reply): ScanResult {
    match reply
    case Unreachable => if bypass then Ok(ScanResponse("allow", text)) else Err(ShieldUnreachable)
    case Garbled => Err(Undecodable)
    case Verdict(response) => Ok(response)
  }

  class Client {
    const bypassOnFailure: bool
    const cbTimeout: nat
    var firstFailure: Option<int>

    constructor (bypass: bool)
      ensures bypassOnFailure == bypass && cbTimeout == CB_TIMEOUT && firstFailure == None
    {
      bypassOnFailure := bypass;
      cbTimeout := CB_TIMEOUT;
      firstFailure := None;
    }

    method IsOpen(now: int) returns (open: bool)
      requires cbTimeout == CB_TIMEOUT
      ensures open <==> Open(firstFailure, now)
    {
      match firstFailure {
        case None => return false;
        case Some(t) => return now - t >= cbTimeout;
      }
    }

    method RecordFailure(now: int)
      modifies this`firstFailure
      ensures old(firstFailure).None? ==> firstFailure == Some(now)
      ensures old(firstFailure).Some? ==> firstFailure == old(firstFailure)
    {
      if firstFailure.None? {
        firstFailure := Some(now);
      }
    }

    method RecordSuccess()
      modifies this`firstFailure
      ensures firstFailure == None
    {
      firstFailure := None;
    }

    /** One scan with nothing else landing in between: `checked` is when the circuit is looked
        at, `reply` what the shield answers if called, `landed` when that answer arrives.
        `sent` is the request the shield got, if any. */
    method Scan(agentID: string, direction: string, text: string, checked: int, reply: Reply, landed: int)
      returns (sent: Option<ScanRequest>, result: ScanResult)
      requires cbTimeout == CB_TIMEOUT
      modifies this`firstFailure
      ensures sent == if Open(old(firstFailure), checked) then None else Some(ScanRequest(agentID, direction, text))
      ensures sent.Some? ==> result == ReplyResult(bypassOnFailure, text, reply)
      ensures sent.Some? ==> firstFailure == AfterReply(old(firstFailure), reply, landed)
      ensures sent.None? ==> result == ShortResult(bypassOnFailure, text) && firstFailure == old(firstFailure)
    {
      var open := IsOpen(checked);
      if open {
        if bypassOnFailure {
          return None, Ok(ScanResponse("allow", text));
        }
        return None, Err(CircuitOpen);
      }
      sent := Some(ScanRequest(agentID, direction, text));
      match reply {
        case Unreachable =>
          RecordFailure(landed);
          result := if bypassOnFailure then Ok(ScanResponse("allow", text)) else Err(ShieldUnreachable);
        case Garbled =>
          RecordSuccess();
          result := Err(Undecodable);
        case Verdict(response) =>
          RecordSuccess();
          result := Ok(response);
      }
    }
  }

  // ----- Runs of overlapping scans -----

  /** A scan touches the breaker twice: when it looks at the circuit, and when the shield's
      answer lands. Other scans may do either in between. */
  datatype Event =
    | Begin(id: nat, now: int)
    | Land(id: nat, reply: Reply, now: int)

  datatype Breaker = Breaker(first: Option<int>, clock: int, inFlight: set<nat>, calls: nat)

  function Init(clock: int): Breaker {
    Breaker(None, clock, {}, 0)
  }

  predicate Enabled(b: Breaker, e: Event) {
    && b.clock <= e.now
    && (e.Begin? ==> e.id !in b.inFlight)
    && (e.Land? ==> e.id in b.inFlight)
  }

  function Next(b: Breaker, e: Event): Breaker {
    match e
    case Begin(id, now) =>
      if Open(b.first, now) then b.(clock := now)
      else b.(clock := now, inFlight := b.inFlight + {id}, calls := b.calls + 1)
    case Land(id, reply, now) =>
      b.(first := AfterReply(b.first, reply, now), clock := now, inFlight := b.inFlight - {id})
  }

  predicate CanRun(b: Breaker, es: seq<Event>)
    decreases |es|
  {
    es == [] || (Enabled(b, es[0]) && CanRun(Next(b, es[0]), es[1..]))
  }

  function Run(b: Breaker, es: seq<Event>): Breaker
    decreases |es|
  {
    if es == [] then b else Run(Next(b, es[0]), es[1..])
  }

  // ----- What the stored failure time is -----

  predicate IsFailure(e: Event) {
    e.Land? && e.reply.Unreachable?
  }

  predicate IsSuccess(e: Event) {
    e.Land? && !e.reply.Unreachable?
  }

  /** Event `k` is the first failure to land after the last success to land. */
  predicate FirstSinceSuccess(es: seq<Event>, k: nat) {
    && k < |es| && IsFailure(es[k])
    && (forall j :: k < j < |es| ==> !IsSuccess(es[j]))
    && (forall i :: 0 <= i < k && IsFailure(es[i]) ==> SuccessWithin(es, i, k))
  }

  predicate SuccessWithin(es: seq<Event>, lo: nat, hi: nat) {
    exists j :: lo <= j < hi && j < |es| && IsSuccess(es[j])
  }

  /** What `first` is after `es`, in terms of the events alone. */
  ghost predicate StoredIs(first: Option<int>, es: seq<Event>) {
    && (first.None? ==> forall k: nat :: !FirstSinceSuccess(es, k))
    && (first.Some? ==> exists k: nat :: FirstSinceSuccess(es, k) && es[k].now == first.value)
  }

  lemma FirstSinceSuccessIsUnique(es: seq<Event>, k: nat, l: nat)
    requires FirstSinceSuccess(es, k) && FirstSinceSuccess(es, l)
    ensures k == l
  {
    assert k < l ==> SuccessWithin(es, k, l);
    assert l < k ==> SuccessWithin(es, l, k);
  }

  function Reached(clock: int, es: seq<Event>): Breaker {
    if es == [] then Init(clock) else Next(Reached(clock, es[..|es| - 1]), es[|es| - 1])
  }

  lemma {:induction false} ReachedIsRun(b: Breaker, es: seq<Event>, e: Event)
    ensures Run(b, es + [e]) == Next(Run(b, es), e)
    decreases |es|
  {
    if es == [] {
      assert Run(Next(b, e), []) == Next(b, e);
      assert ([e])[1..] == [];
    } else {
      assert (es + [e])[1..] == es[1..] + [e];
      ReachedIsRun(Next(b, es[0]), es[1..], e);
    }
  }

  lemma {:induction false} RunIsReached(clock: int, es: seq<Event>)
    ensures Run(Init(clock), es) == Reached(clock, es)
  {
    if es != [] {
      var es' := es[..|es| - 1];
      assert es == es' + [es[|es| - 1]];
      RunIsReached(clock, es');
      ReachedIsRun(Init(clock), es', es[|es| - 1]);
    }
  }

  lemma ExtendFirst(es: seq<Event>, e: Event, k: nat)
    requires k < |es| && !IsSuccess(e)
    ensures FirstSinceSuccess(es + [e], k) <==> FirstSinceSuccess(es, k)
  {
    var es' := es + [e];
    forall i | 0 <= i < k
      ensures SuccessWithin(es', i, k) <==> SuccessWithin(es, i, k)
    {
      if SuccessWithin(es', i, k) {
        var j :| i <= j < k && IsSuccess(es'[j]);
        assert IsSuccess(es[j]);
      }
      if SuccessWithin(es, i, k) {
        var j :| i <= j < k && IsSuccess(es[j]);
        assert IsSuccess(es'[j]);
      }
    }
    assert forall j :: 0 <= j < |es| ==> es'[j] == es[j];
    if FirstSinceSuccess(es', k) {
      assert forall j :: k < j < |es| ==> !IsSuccess(es'[j]);
    }
  }

  /** With no failure stored, every failure has a success after it. */
  lemma {:induction false} ClearedMeansAnswered(clock: int, es: seq<Event>, i: nat)
    requires Reached(clock, es).first.None? && i < |es| && IsFailure(es[i])
    ensures SuccessWithin(es, i, |es|)
  {
    var n := |es| - 1;
    var e := es[n];
    if IsSuccess(e) {
      assert i <= n < |es|;
    } else {
      assert !IsFailure(e);
      ClearedMeansAnswered(clock, es[..n], i);
      var j :| i <= j < n && IsSuccess(es[..n][j]);
      assert IsSuccess(es[j]);
    }
  }

  lemma {:induction false} StoredAfter(clock: int, es: seq<Event>)
    ensures StoredIs(Reached(clock, es).first, es)
  {
    if es == [] {
      return;
    }
    var n := |es| - 1;
    var past, e := es[..n], es[n];
    assert es == past + [e];
    var before := Reached(clock, past).first;
    StoredAfter(clock, past);
    if IsSuccess(e) {
      forall k: nat
        ensures !FirstSinceSuccess(es, k)
      {
        assert k < n ==> IsSuccess(es[n]);
      }
    } else if IsFailure(e) && before.None? {
      forall i | 0 <= i < n && IsFailure(es[i])
        ensures SuccessWithin(es, i, n)
      {
        assert IsFailure(past[i]);
        ClearedMeansAnswered(clock, past, i);
        var j :| i <= j < n && IsSuccess(past[j]);
        assert IsSuccess(es[j]);
      }
      assert FirstSinceSuccess(es, n);
    } else {
      StoredCarries(before, past, e);
    }
  }

  lemma StoredCarries(first: Option<int>, past: seq<Event>, e: Event)
    requires StoredIs(first, past) && !IsSuccess(e) && (IsFailure(e) ==> first.Some?)
    ensures StoredIs(first, past + [e])
  {
    if first.Some? {
      var k: nat :| FirstSinceSuccess(past, k) && past[k].now == first.value;
      ExtendFirst(past, e, k);
      assert FirstSinceSuccess(past + [e], k) && (past + [e])[k].now == first.value;
    } else {
      forall k: nat
        ensures !FirstSinceSuccess(past + [e], k)
      {
        if k < |past| {
          ExtendFirst(past, e, k);
        }
      }
    }
  }

  /** After any run the stored time is that of the first failure landed since the last landed
      success, and there is none exactly when there is no such failure. */
  lemma StoredFailureExactly(clock: int, es: seq<Event>, t: int)
    requires CanRun(Init(clock), es)
    ensures
      var b := Run(Init(clock), es);
      && (b.first == Some(t) <==> exists k: nat :: FirstSinceSuccess(es, k) && es[k].now == t)
      && (b.first == None <==> forall k: nat :: !FirstSinceSuccess(es, k))
  {
    RunIsReached(clock, es);
    StoredAfter(clock, es);
    var first := Reached(clock, es).first;
    forall k: nat, l: nat | FirstSinceSuccess(es, k) && FirstSinceSuccess(es, l)
      ensures k == l
    {
      FirstSinceSuccessIsUnique(es, k, l);
    }
  }

  /** The circuit is open exactly when that failure is at least thirty seconds old. */
  lemma OpenExactly(clock: int, es: seq<Event>, now: int)
    requires CanRun(Init(clock), es)
    ensures Open(Run(Init(clock), es).first, now) <==>
            exists k: nat :: FirstSinceSuccess(es, k) && now - es[k].now >= 30_000_000_000
  {
    var first := Run(Init(clock), es).first;
    StoredFailureExactly(clock, es, if first.Some? then first.value else 0);
    if exists k: nat :: FirstSinceSuccess(es, k) && now - es[k].now >= CB_TIMEOUT {
      var k: nat :| FirstSinceSuccess(es, k) && now - es[k].now >= CB_TIMEOUT;
      StoredFailureExactly(clock, es, es[k].now);
    }
  }

  // ----- An open circuit -----

  ghost predicate NoSuccess(es: seq<Event>) {
    forall i :: 0 <= i < |es| ==> !IsSuccess(es[i])
  }

  /** While no success lands, an open circuit stays open, keeps its failure time and lets no
      further call through. */
  lemma {:induction false} OpenUntilSuccess(b: Breaker, es: seq<Event>)
    requires CanRun(b, es) && Open(b.first, b.clock) && NoSuccess(es)
    ensures
      var c := Run(b, es);
      && c.first == b.first && c.calls == b.calls && c.inFlight <= b.inFlight
      && b.clock <= c.clock && Open(c.first, c.clock)
    decreases |es|
  {
    if es != [] {
      assert !IsSuccess(es[0]);
      assert forall i :: 0 <= i < |es[1..]| ==> es[1..][i] == es[i + 1];
      OpenUntilSuccess(Next(b, es[0]), es[1..]);
    }
  }

  lemma {:induction false} NothingLands(b: Breaker, es: seq<Event>)
    requires CanRun(b, es) && Open(b.first, b.clock) && b.inFlight == {}
    ensures NoSuccess(es) && forall i :: 0 <= i < |es| ==> es[i].Begin?
    decreases |es|
  {
    if es != [] {
      NothingLands(Next(b, es[0]), es[1..]);
      assert forall i :: 1 <= i < |es| ==> es[i] == es[1..][i - 1];
    }
  }

  /** There is no half-open state: an open circuit with no scan in flight stays open in every
      later run, and the shield is never called again. */
  lemma NoHalfOpen(b: Breaker, es: seq<Event>)
    requires CanRun(b, es) && Open(b.first, b.clock) && b.inFlight == {}
    ensures
      var c := Run(b, es);
      c.first == b.first && c.calls == b.calls && c.inFlight == {} && Open(c.first, c.clock)
  {
    NothingLands(b, es);
    OpenUntilSuccess(b, es);
  }

  ghost predicate CanCallAgain(b: Breaker) {
    exists es :: CanRun(b, es) && Run(b, es).calls > b.calls
  }

  /** An open circuit can ever call the shield again exactly when some scan is still in flight. */
  lemma RecoverableIffInFlight(b: Breaker)
    requires Open(b.first, b.clock)
    ensures CanCallAgain(b) <==> b.inFlight != {}
  {
    if b.inFlight == {} {
      forall es | CanRun(b, es)
        ensures Run(b, es).calls == b.calls
      {
        NoHalfOpen(b, es);
      }
    } else {
      var id: nat :| id in b.inFlight;
      var landing, again := Land(id, Garbled, b.clock), Begin(id, b.clock);
      var b1 := Next(b, landing);
      var b2 := Next(b1, again);
      var es := [landing, again];
      assert es[1..] == [again] && [again][1..] == [];
      assert CanRun(b2, []) && Run(b2, []) == b2;
      assert CanRun(b1, [again]) && Run(b1, [again]) == b2;
      assert CanRun(b, es) && Run(b, es) == b2;
    }
  }

  /** One call is made at `t` and fails at once. */
  function AfterOneFailure(t: int): Breaker {
    Next(Next(Init(t), Begin(0, t)), Land(0, Unreachable, t))
  }

  /** A single failed call followed by silence opens the circuit for good, although the shield
      was never asked again. */
  lemma OneFailureThenSilence(t: int, es: seq<Event>)
    requires CanRun(AfterOneFailure(t), es)
    requires es != [] ==> es[0].now >= t + CB_TIMEOUT
    ensures Run(AfterOneFailure(t), es).calls == 1
    ensures es != [] ==> Open(Run(AfterOneFailure(t), es).first, Run(AfterOneFailure(t), es).clock)
  {
    if es != [] {
      var b := Next(AfterOneFailure(t), es[0]);
      assert b.first == Some(t) && b.inFlight == {} && b.calls == 1;
      NoHalfOpen(b, es[1..]);
    }
  }
}
