/** Runs of overlapping requests through the PII middleware, all sharing one breaker: nothing is
    forwarded before it has been scanned.
 */
module PiiRuns {
  import opened Options
  import opened PiiBreaker
  import opened PiiPipeline

  /** A scan the shield answered with a verdict. */
  datatype Scan = Scan(id: nat, request: ScanRequest, response: ScanResponse)

  /** `excused` holds the requests, with the direction, for which the circuit was found open or
      the shield could not be reached. */
  datatype World = World(
    breaker: Breaker, requests: map<nat, Request>, log: seq<Scan>, excused: set<(nat, string)>)

  datatype Move =
    | Arrive(id: nat, header: string, body: Incoming, at: int)
    | Answered(id: nat, reply: Reply, at: int)
    | Finish(id: nat, recorded: Recorded, at: int)

  function Start(clock: int): World {
    World(Init(clock), map[], [], {})
  }

  predicate Possible(w: World, m: Move) {
    && w.breaker.clock <= m.at
    && match m
       case Arrive(id, _, _, _) => id !in w.requests
       case Answered(id, _, _) => id in w.requests && Waiting(w.requests[id])
       case Finish(id, _, _) => id in w.requests && w.requests[id].stage.Serving?
  }

  function Logged(id: nat, q: Request, reply: Reply): seq<Scan> {
    if reply.Verdict? then [Scan(id, Sent(q), reply.response)] else []
  }

  /** The request a move is about, after the move. */
  function Moved(bypass: bool, w: World, m: Move): Request
    requires Possible(w, m)
  {
    match m
    case Arrive(_, header, body, at) => OnArrive(bypass, w.breaker.first, header, body, at)
    case Answered(id, reply, _) => OnReply(bypass, w.requests[id], reply)
    case Finish(id, recorded, at) => OnFinish(bypass, w.breaker.first, w.requests[id], recorded, at)
  }

  /** The text a move asks to have scanned, if any. */
  function ToScan(m: Move): string {
    match m
    case Arrive(_, _, body, _) => if body.Body? then body.text else ""
    case Answered(_, _, _) => ""
    case Finish(_, recorded, _) => recorded.body
  }

  /** What a move does to the breaker. */
  function Touches(m: Move): seq<Event> {
    if m.Answered? then [Land(m.id, m.reply, m.at)]
    else if ToScan(m) != "" then [Begin(m.id, m.at)]
    else []
  }

  /** A text to scan met an open circuit, or the answer is that the shield was unreachable. */
  function Excuses(w: World, m: Move): set<(nat, string)>
    requires Possible(w, m)
  {
    match m
    case Arrive(id, _, body, at) =>
      if body.Body? && body.text != "" && Open(w.breaker.first, at) then {(id, "input")} else {}
    case Answered(id, reply, _) =>
      if reply == Unreachable then {(id, if w.requests[id].stage.CheckingInput? then "input" else "output")} else {}
    case Finish(id, recorded, at) =>
      if recorded.body != "" && Open(w.breaker.first, at) then {(id, "output")} else {}
  }

  function After(bypass: bool, w: World, m: Move): World
    requires Possible(w, m)
  {
    World(
      if Touches(m) == [] then w.breaker else Next(w.breaker, Touches(m)[0]),
      w.requests[m.id := Moved(bypass, w, m)],
      if m.Answered? then w.log + Logged(m.id, w.requests[m.id], m.reply) else w.log,
      w.excused + Excuses(w, m))
  }

  predicate IsRun(bypass: bool, w: World, ms: seq<Move>)
    decreases |ms|
  {
    ms == [] || (Possible(w, ms[0]) && IsRun(bypass, After(bypass, w, ms[0]), ms[1..]))
  }

  function RunAll(bypass: bool, w: World, ms: seq<Move>): World
    requires IsRun(bypass, w, ms)
    decreases |ms|
  {
    if ms == [] then w else RunAll(bypass, After(bypass, w, ms[0]), ms[1..])
  }

  // ----- What every run keeps -----

  predicate ScannedAs(log: seq<Scan>, id: nat, agent: string, direction: string, original: string, delivered: string) {
    exists k :: 0 <= k < |log| && Covers(log[k], id, agent, direction, original, delivered)
  }

  /** The scan is of exactly this body, in this direction, and its verdict lets `delivered` through. */
  predicate Covers(s: Scan, id: nat, agent: string, direction: string, original: string, delivered: string) {
    && s.id == id && s.request == ScanRequest(agent, direction, original)
    && s.response.decision != "block"
    && delivered == (if s.response.decision == "redact" then s.response.sanitizedText else original)
  }

  predicate Blocked(log: seq<Scan>, id: nat) {
    exists k :: 0 <= k < |log| && log[k].id == id && log[k].response.decision == "block"
  }

  /** `excused`: bypass is on and the scan of this body has an excuse. */
  predicate Justified(excused: bool, log: seq<Scan>, id: nat, agent: string, direction: string, original: string, delivered: string) {
    (original == "" && delivered == "") || (excused && delivered == original) || ScannedAs(log, id, agent, direction, original, delivered)
  }

  predicate InputOk(excused: bool, log: seq<Scan>, id: nat, q: Request) {
    q.forwarded.Some? ==>
      if q.forwarded.value.NoBody? then q.arrived.Absent?
      else q.arrived.Body? && Justified(excused, log, id, q.agent, INPUT, q.arrived.text, q.forwarded.value.text)
  }

  predicate OutputOk(excused: bool, log: seq<Scan>, id: nat, q: Request) {
    q.stage.Done? && q.stage.answer.FromHandler? ==>
      && q.forwarded.Some? && q.produced.Some? && q.stage.answer.status == q.produced.value.status
      && Justified(excused, log, id, q.agent, OUTPUT, q.produced.value.body, q.stage.answer.body)
  }

  predicate Shaped(q: Request) {
    && (q.stage.CheckingInput? ==> q.arrived.Body? && q.arrived.text != "" && q.forwarded.None? && q.produced.None?)
    && (q.stage.Serving? ==> q.forwarded.Some? && q.produced.None?)
    && (q.stage.CheckingOutput? ==> q.forwarded.Some? && q.produced.Some? && q.produced.value.body != "")
  }

  /** A request is refused with 403 exactly when the shield said "block" for it. */
  predicate BlockOk(log: seq<Scan>, id: nat, q: Request) {
    Blocked(log, id) <==> q.stage == Done(Refused(FORBIDDEN))
  }

  predicate RequestOk(bypass: bool, w: World, id: nat, q: Request) {
    && Shaped(q) && BlockOk(w.log, id, q)
    && InputOk(bypass && (id, INPUT) in w.excused, w.log, id, q)
    && OutputOk(bypass && (id, OUTPUT) in w.excused, w.log, id, q)
  }

  /** A completed scan has settled what becomes of the body it was about. */
  predicate Settles(s: Scan, q: Request) {
    var text, decision := s.request.text, s.response.decision;
    var delivered := if decision == "redact" then s.response.sanitizedText else text;
    && text != ""
    && if s.request.direction == INPUT then
         && q.arrived == Body(text)
         && (if decision == "block" then q.forwarded.None? && q.stage == Done(Refused(FORBIDDEN))
             else q.forwarded == Some(Bytes(delivered)))
       else
         && s.request.direction == OUTPUT && q.produced.Some? && q.produced.value.body == text
         && q.stage == Done(if decision == "block" then Refused(FORBIDDEN) else FromHandler(q.produced.value.status, delivered))
  }

  predicate LogOk(w: World) {
    forall k :: 0 <= k < |w.log| ==> w.log[k].id in w.requests && Settles(w.log[k], w.requests[w.log[k].id])
  }

  ghost predicate FlightOk(w: World) {
    forall id :: id in w.breaker.inFlight <==> id in w.requests && Waiting(w.requests[id])
  }

  ghost predicate Inv(bypass: bool, w: World) {
    && LogOk(w) && FlightOk(w)
    && forall id :: id in w.requests ==> RequestOk(bypass, w, id, w.requests[id])
  }

  lemma LaterOk(bypass: bool, w: World, w': World, more: seq<Scan>, id: nat, q: Request)
    requires RequestOk(bypass, w, id, q) && w'.log == w.log + more && w.excused <= w'.excused
    requires forall k :: 0 <= k < |more| ==> more[k].id != id
    ensures RequestOk(bypass, w', id, q)
  {
    LongerCovers(w.log, more, id, q.agent);
    assert Blocked(w'.log, id) <==> Blocked(w.log, id) by {
      if Blocked(w.log, id) {
        var k :| 0 <= k < |w.log| && w.log[k].id == id && w.log[k].response.decision == "block";
        assert w'.log[k] == w.log[k];
      }
    }
  }

  ghost predicate KeepsCovers(log: seq<Scan>, longer: seq<Scan>, id: nat, agent: string) {
    forall d, o, t :: ScannedAs(log, id, agent, d, o, t) ==> ScannedAs(longer, id, agent, d, o, t)
  }

  lemma LongerCovers(log: seq<Scan>, more: seq<Scan>, id: nat, agent: string)
    ensures KeepsCovers(log, log + more, id, agent)
  {
    forall d, o, t | ScannedAs(log, id, agent, d, o, t)
      ensures ScannedAs(log + more, id, agent, d, o, t)
    {
      var k :| 0 <= k < |log| && Covers(log[k], id, agent, d, o, t);
      assert Covers((log + more)[k], id, agent, d, o, t);
    }
  }

  lemma ReplyJudged(bypass: bool, log: seq<Scan>, id: nat, q: Request, reply: Reply)
    ensures
      var longer := log + Logged(id, q, reply);
      && (Blocked(longer, id) <==> Blocked(log, id) || (reply.Verdict? && reply.response.decision == "block"))
      && match Judge(Scanned(q), ReplyResult(bypass, Scanned(q), reply))
         case Pass(out) =>
           && Justified(bypass && reply == Unreachable, longer, id, Sent(q).agentID, Sent(q).direction, Sent(q).text, out)
           && !(reply.Verdict? && reply.response.decision == "block")
         case Stop(code) =>
           (code == FORBIDDEN <==> reply.Verdict? && reply.response.decision == "block")
  {
    var longer := log + Logged(id, q, reply);
    var n := |log|;
    if reply.Verdict? {
      assert longer[n] == Scan(id, Sent(q), reply.response);
    }
    if Blocked(log, id) {
      var k :| 0 <= k < |log| && log[k].id == id && log[k].response.decision == "block";
      assert longer[k] == log[k];
    }
  }

  lemma AnsweredOk(bypass: bool, w: World, m: Move)
    requires Inv(bypass, w) && Possible(w, m) && m.Answered?
    ensures RequestOk(bypass, After(bypass, w, m), m.id, Moved(bypass, w, m))
  {
    var q := w.requests[m.id];
    assert RequestOk(bypass, w, m.id, q);
    ReplyJudged(bypass, w.log, m.id, q, m.reply);
    LongerCovers(w.log, Logged(m.id, q, m.reply), m.id, q.agent);
  }

  lemma MovedOk(bypass: bool, w: World, m: Move)
    requires Inv(bypass, w) && Possible(w, m)
    ensures RequestOk(bypass, After(bypass, w, m), m.id, Moved(bypass, w, m))
  {
    if m.Answered? {
      AnsweredOk(bypass, w, m);
    }
  }

  /** A verdict that lands settles its request, and no later move of the request undoes that. */
  lemma MoveSettles(bypass: bool, w: World, m: Move, s: Scan)
    requires Possible(w, m) && m.id in w.requests && Shaped(w.requests[m.id])
    requires
      || Settles(s, w.requests[m.id])
      || (m.Answered? && m.reply.Verdict? && s == Scan(m.id, Sent(w.requests[m.id]), m.reply.response))
    ensures Settles(s, Moved(bypass, w, m))
  {
  }

  lemma LogKept(bypass: bool, w: World, m: Move)
    requires Inv(bypass, w) && Possible(w, m)
    ensures LogOk(After(bypass, w, m))
  {
    hide Settles, Moved;
    var w' := After(bypass, w, m);
    assert m.id in w.requests ==> RequestOk(bypass, w, m.id, w.requests[m.id]);
    forall k | 0 <= k < |w'.log|
      ensures w'.log[k].id in w'.requests && Settles(w'.log[k], w'.requests[w'.log[k].id])
    {
      if k < |w.log| {
        assert w'.log[k] == w.log[k];
        if w.log[k].id == m.id {
          MoveSettles(bypass, w, m, w.log[k]);
        }
      } else {
        MoveSettles(bypass, w, m, w'.log[k]);
      }
    }
  }

  lemma StepKeepsInv(bypass: bool, w: World, m: Move)
    requires Inv(bypass, w) && Possible(w, m)
    ensures Inv(bypass, After(bypass, w, m))
  {
    var w' := After(bypass, w, m);
    LogKept(bypass, w, m);
    forall id | id in w'.requests
      ensures RequestOk(bypass, w', id, w'.requests[id])
    {
      MovedOk(bypass, w, m);
      if id != m.id {
        OthersKept(bypass, w, m, id);
      }
    }
  }

  lemma OthersKept(bypass: bool, w: World, m: Move, id: nat)
    requires Inv(bypass, w) && Possible(w, m) && id in w.requests && id != m.id
    ensures RequestOk(bypass, After(bypass, w, m), id, w.requests[id])
  {
    assert RequestOk(bypass, w, id, w.requests[id]);
    if m.Answered? {
      LaterOk(bypass, w, After(bypass, w, m), Logged(m.id, w.requests[m.id], m.reply), id, w.requests[id]);
    } else {
      LaterOk(bypass, w, After(bypass, w, m), [], id, w.requests[id]);
    }
  }

  lemma {:induction false} RunKeepsInv(bypass: bool, w: World, ms: seq<Move>)
    requires Inv(bypass, w) && IsRun(bypass, w, ms)
    ensures Inv(bypass, RunAll(bypass, w, ms))
    decreases |ms|
  {
    if ms != [] {
      StepKeepsInv(bypass, w, ms[0]);
      RunKeepsInv(bypass, After(bypass, w, ms[0]), ms[1..]);
    }
  }

  /** Over every run, for both bypass settings and whatever the circuit did: a body that reached
      the next handler, or the client, is the original or sanitised text of a completed scan of
      exactly that body in that direction, unless there was nothing to scan, or bypass is on, the
      body is unchanged, and its scan met an open circuit or an unreachable shield. */
  lemma UnscannedOnlyExcused(bypass: bool, clock: int, ms: seq<Move>, id: nat)
    requires IsRun(bypass, Start(clock), ms) && id in RunAll(bypass, Start(clock), ms).requests
    ensures
      var w := RunAll(bypass, Start(clock), ms);
      var q := w.requests[id];
      && (q.forwarded.Some? && q.forwarded.value.Bytes? ==>
            && q.arrived.Body?
            && var original, delivered := q.arrived.text, q.forwarded.value.text;
               if original == "" then delivered == ""
               else
                 (ScannedAs(w.log, id, q.agent, "input", original, delivered)
                  || (bypass && (id, "input") in w.excused && delivered == original)))
      && (q.stage.Done? && q.stage.answer.FromHandler? ==>
            && q.produced.Some?
            && var original, delivered := q.produced.value.body, q.stage.answer.body;
               if original == "" then delivered == ""
               else
                 (ScannedAs(w.log, id, q.agent, "output", original, delivered)
                  || (bypass && (id, "output") in w.excused && delivered == original)))
  {
    RunKeepsInv(bypass, Start(clock), ms);
    var w := RunAll(bypass, Start(clock), ms);
    var q := w.requests[id];
    assert RequestOk(bypass, w, id, q);
    assert LogOk(w);
  }

  /** With bypass off nothing is excused: whatever was delivered has been scanned. */
  lemma ScanBeforeForward(clock: int, ms: seq<Move>, id: nat)
    requires IsRun(false, Start(clock), ms) && id in RunAll(false, Start(clock), ms).requests
    ensures
      var w := RunAll(false, Start(clock), ms);
      var q := w.requests[id];
      && (q.forwarded.Some? && q.forwarded.value.Bytes? ==>
            && q.arrived.Body?
            && (if q.arrived.text == "" then q.forwarded.value.text == ""
                else ScannedAs(w.log, id, q.agent, "input", q.arrived.text, q.forwarded.value.text)))
      && (q.stage.Done? && q.stage.answer.FromHandler? ==>
            && q.produced.Some?
            && (if q.produced.value.body == "" then q.stage.answer.body == ""
                else ScannedAs(w.log, id, q.agent, "output", q.produced.value.body, q.stage.answer.body)))
  {
    UnscannedOnlyExcused(false, clock, ms, id);
  }

  /** Whatever the bypass setting: a request is answered 403 exactly when a scan of it came back
      "block", and nothing else a scan says stops the request with that status. */
  lemma ForbiddenIffBlocked(bypass: bool, clock: int, ms: seq<Move>, id: nat)
    requires IsRun(bypass, Start(clock), ms) && id in RunAll(bypass, Start(clock), ms).requests
    ensures
      var w := RunAll(bypass, Start(clock), ms);
      Blocked(w.log, id) <==> w.requests[id].stage == Done(Refused(403))
  {
    RunKeepsInv(bypass, Start(clock), ms);
    var w := RunAll(bypass, Start(clock), ms);
    assert RequestOk(bypass, w, id, w.requests[id]);
  }

  /** Whatever the bypass setting, a verdict decides the body it is about, either way round:
      "block" stops it with 403, "redact" replaces it by exactly the sanitised text, and any
      other decision, known or not, passes exactly the scanned text. */
  lemma VerdictDecides(bypass: bool, clock: int, ms: seq<Move>, k: nat)
    requires IsRun(bypass, Start(clock), ms) && k < |RunAll(bypass, Start(clock), ms).log|
    ensures
      var w := RunAll(bypass, Start(clock), ms);
      var s := w.log[k];
      s.id in w.requests &&
      var q, text, decision := w.requests[s.id], s.request.text, s.response.decision;
      var delivered := if decision == "redact" then s.response.sanitizedText else text;
      && (s.request.direction == "input" || s.request.direction == "output")
      && (s.request.direction == "input" ==>
            && q.arrived == Body(text)
            && (forall t :: q.forwarded == Some(Bytes(t)) <==> decision != "block" && t == delivered))
      && (s.request.direction == "output" ==>
            && q.produced.Some? && q.produced.value.body == text
            && (forall t :: q.stage == Done(FromHandler(q.produced.value.status, t)) <==> decision != "block" && t == delivered))
      && (decision == "block" ==> q.stage == Done(Refused(403)))
  {
    RunKeepsInv(bypass, Start(clock), ms);
    var w := RunAll(bypass, Start(clock), ms);
    assert Settles(w.log[k], w.requests[w.log[k].id]);
  }

  // ----- What each landing answer and each short circuit comes to -----

  lemma {:induction false} RunSplit(bypass: bool, w: World, ms: seq<Move>, i: nat)
    requires IsRun(bypass, w, ms) && i <= |ms|
    ensures IsRun(bypass, w, ms[..i])
    ensures
      var u := RunAll(bypass, w, ms[..i]);
      IsRun(bypass, u, ms[i..]) && RunAll(bypass, u, ms[i..]) == RunAll(bypass, w, ms)
    decreases i
  {
    if i == 0 {
      assert ms[..0] == [] && ms[0..] == ms;
    } else {
      assert ms[..i][1..] == ms[1..][..i - 1] && ms[1..][i - 1..] == ms[i..];
      RunSplit(bypass, After(bypass, w, ms[0]), ms[1..], i - 1);
    }
  }

  /** q' is q later on: what arrived stays, what was handed on stays, and an answer is final. */
  predicate Later(q: Request, q': Request) {
    && q'.agent == q.agent && q'.arrived == q.arrived
    && (q.forwarded.Some? ==> q'.forwarded == q.forwarded)
    && (q.stage.Done? ==> q' == q)
  }

  lemma {:induction false} RequestsAge(bypass: bool, w: World, ms: seq<Move>, id: nat)
    requires Inv(bypass, w) && IsRun(bypass, w, ms) && id in w.requests
    ensures id in RunAll(bypass, w, ms).requests && Later(w.requests[id], RunAll(bypass, w, ms).requests[id])
    decreases |ms|
  {
    if ms != [] {
      var m := ms[0];
      assert RequestOk(bypass, w, id, w.requests[id]);
      StepKeepsInv(bypass, w, m);
      hide Moved, RequestOk, LogOk;
      RequestsAge(bypass, After(bypass, w, m), ms[1..], id);
    }
  }

  /** Move i of a run, the world it meets, and the request it is about, then and in the end. */
  lemma MoveInRun(bypass: bool, clock: int, ms: seq<Move>, i: nat)
    requires IsRun(bypass, Start(clock), ms) && i < |ms|
    ensures IsRun(bypass, Start(clock), ms[..i])
    ensures
      var u, w := RunAll(bypass, Start(clock), ms[..i]), RunAll(bypass, Start(clock), ms);
      && Inv(bypass, u) && Possible(u, ms[i])
      && ms[i].id in w.requests && Later(Moved(bypass, u, ms[i]), w.requests[ms[i].id])
  {
    RunSplit(bypass, Start(clock), ms, i);
    RunKeepsInv(bypass, Start(clock), ms[..i]);
    var u := RunAll(bypass, Start(clock), ms[..i]);
    StepKeepsInv(bypass, u, ms[i]);
    assert ms[i..][1..] == ms[i + 1..];
    RequestsAge(bypass, After(bypass, u, ms[i]), ms[i + 1..], ms[i].id);
  }

  /** In every run: an answer that does not decode ends the request with 503, whatever the bypass
      setting, and an input body so answered is never handed on. An unreachable shield does the
      same without bypass; with it, exactly the body scanned is handed on or answered. */
  lemma LandedDecides(bypass: bool, clock: int, ms: seq<Move>, i: nat)
    requires IsRun(bypass, Start(clock), ms) && i < |ms| && ms[i].Answered?
    ensures IsRun(bypass, Start(clock), ms[..i])
    ensures
      var u, w := RunAll(bypass, Start(clock), ms[..i]), RunAll(bypass, Start(clock), ms);
      && ms[i].id in u.requests && ms[i].id in w.requests
      && var q, q' := u.requests[ms[i].id], w.requests[ms[i].id];
         && (ms[i].reply == Garbled || (ms[i].reply == Unreachable && !bypass) ==>
               && q'.stage == Done(Refused(503))
               && (q.stage.CheckingInput? ==> q'.forwarded == None))
         && (ms[i].reply == Unreachable && bypass && q.stage.CheckingInput? ==>
               q.arrived.Body? && q'.forwarded == Some(Bytes(q.arrived.text)))
         && (ms[i].reply == Unreachable && bypass && q.stage.CheckingOutput? ==>
               && q.produced.Some?
               && q'.stage == Done(FromHandler(q.produced.value.status, q.produced.value.body)))
  {
    MoveInRun(bypass, clock, ms, i);
    var u := RunAll(bypass, Start(clock), ms[..i]);
    assert RequestOk(bypass, u, ms[i].id, u.requests[ms[i].id]);
  }

  /** In every run: a request without a body is handed on without one, a broken body is answered
      400, and an empty one is handed on unscanned. A body that meets an open circuit is handed on
      as it is under bypass and else answered 503; on a closed circuit the shield is asked about
      exactly that body, for the consumer named in the header. */
  lemma ArrivalDecides(bypass: bool, clock: int, ms: seq<Move>, i: nat)
    requires IsRun(bypass, Start(clock), ms) && i < |ms| && ms[i].Arrive?
    ensures IsRun(bypass, Start(clock), ms[..i])
    ensures
      var u, w := RunAll(bypass, Start(clock), ms[..i]), RunAll(bypass, Start(clock), ms);
      && Possible(u, ms[i]) && ms[i].id in w.requests
      && var q, body := w.requests[ms[i].id], ms[i].body;
         && q.arrived == body && q.agent == (if ms[i].header == "" then "__unknown__" else ms[i].header)
         && (body.Absent? ==> q.forwarded == Some(NoBody))
         && (body.Broken? ==> q.forwarded == None && q.stage == Done(Refused(400)))
         && (body == Body("") ==> q.forwarded == Some(Bytes("")))
         && (body.Body? && body.text != "" && Open(u.breaker.first, ms[i].at) ==>
               if bypass then q.forwarded == Some(Bytes(body.text))
               else q.forwarded == None && q.stage == Done(Refused(503)))
         && (body.Body? && body.text != "" && !Open(u.breaker.first, ms[i].at) ==>
               var asked := After(bypass, u, ms[i]);
               && Waiting(asked.requests[ms[i].id])
               && Sent(asked.requests[ms[i].id]) == ScanRequest(q.agent, "input", body.text)
               && asked.breaker.calls == u.breaker.calls + 1)
  {
    MoveInRun(bypass, clock, ms, i);
  }

  /** Likewise for what the handler produced: an empty body is answered unscanned with the
      handler's status; on an open circuit bypass answers it as it is and else 503; on a closed
      one the shield is asked about exactly that body. */
  lemma FinishDecides(bypass: bool, clock: int, ms: seq<Move>, i: nat)
    requires IsRun(bypass, Start(clock), ms) && i < |ms| && ms[i].Finish?
    ensures IsRun(bypass, Start(clock), ms[..i])
    ensures
      var u, w := RunAll(bypass, Start(clock), ms[..i]), RunAll(bypass, Start(clock), ms);
      && Possible(u, ms[i]) && ms[i].id in w.requests
      && var q, r := w.requests[ms[i].id], ms[i].recorded;
         && (r.body == "" ==> q.stage == Done(FromHandler(r.status, "")))
         && (r.body != "" && Open(u.breaker.first, ms[i].at) ==>
               q.stage == Done(if bypass then FromHandler(r.status, r.body) else Refused(503)))
         && (r.body != "" && !Open(u.breaker.first, ms[i].at) ==>
               var asked := After(bypass, u, ms[i]);
               && Waiting(asked.requests[ms[i].id])
               && Sent(asked.requests[ms[i].id]) == ScanRequest(q.agent, "output", r.body)
               && asked.breaker.calls == u.breaker.calls + 1)
  {
    MoveInRun(bypass, clock, ms, i);
  }

  /** A verdict without a decision lets the body through. */
  lemma EmptyDecisionPasses() returns (ms: seq<Move>)
    ensures
      var start := Start(0);
      && IsRun(false, start, ms)
      && var w := RunAll(false, start, ms);
         && w.log == [Scan(0, ScanRequest("__unknown__", INPUT, "x"), ScanResponse("", ""))]
         && 0 in w.requests && w.requests[0].forwarded == Some(Bytes("x"))
  {
    var arrive := Arrive(0, "", Body("x"), 0);
    var answered := Answered(0, Verdict(ScanResponse("", "")), 0);
    ms := [arrive, answered];
    var w1 := After(false, Start(0), arrive);
    assert ms[1..] == [answered] && ms[1..][1..] == [];
    assert w1.requests[0] == Request("__unknown__", Body("x"), None, None, CheckingInput);
    var w2 := After(false, w1, answered);
    assert IsRun(false, w2, []) && RunAll(false, w2, []) == w2;
    assert IsRun(false, w1, [answered]) && RunAll(false, w1, [answered]) == w2;
  }

  // ----- The breaker inside the run -----

  function BreakerEvents(ms: seq<Move>): seq<Event> {
    if ms == [] then [] else Touches(ms[0]) + BreakerEvents(ms[1..])
  }

  /** A run of requests drives the breaker through a run of overlapping scans, so what holds of
      every run of the breaker holds here. */
  lemma {:induction false} BreakerRuns(bypass: bool, w: World, ms: seq<Move>)
    requires Inv(bypass, w) && IsRun(bypass, w, ms)
    ensures CanRun(w.breaker, BreakerEvents(ms))
    ensures Run(w.breaker, BreakerEvents(ms)) == RunAll(bypass, w, ms).breaker
    decreases |ms|
  {
    if ms != [] {
      var m, w' := ms[0], After(bypass, w, ms[0]);
      StepKeepsInv(bypass, w, m);
      BreakerRuns(bypass, w', ms[1..]);
      var rest := BreakerEvents(ms[1..]);
      if Touches(m) == [] {
        assert BreakerEvents(ms) == rest;
      } else {
        var e := Touches(m)[0];
        assert Enabled(w.breaker, e);
        assert BreakerEvents(ms) == [e] + rest;
        assert ([e] + rest)[1..] == rest;
      }
    }
  }

  /** A request that runs with no other scan in between takes the moves of this machine: each
      phase of the middleware is one move, followed by the shield's answer if it was asked. */
  lemma PhaseIsMoves(bypass: bool, w: World, m: Move, reply: Reply, landed: int)
    requires Possible(w, m) && !m.Answered? && m.at <= landed
    ensures
      var p := Settled(bypass, w.breaker.first, Moved(bypass, w, m), Timing(m.at, reply, landed));
      var w1 := After(bypass, w, m);
      if !Waiting(w1.requests[m.id]) then w1.requests[m.id] == p.q && w1.breaker.first == p.first
      else
        && Possible(w1, Answered(m.id, reply, landed))
        && var w2 := After(bypass, w1, Answered(m.id, reply, landed));
           && w2.requests[m.id] == p.q && w2.breaker.first == p.first
           && (reply.Verdict? ==> w2.log == w.log + [Scan(m.id, p.sent[0], reply.response)])
  {
  }

  ghost predicate Stuck(w: World) {
    Open(w.breaker.first, w.breaker.clock) && w.breaker.inFlight == {}
  }

  /** Once the circuit is open with nothing in flight, the shield is never called and no scan
      completes again. */
  lemma {:induction false} NoMoreScans(bypass: bool, w: World, ms: seq<Move>)
    requires Inv(bypass, w) && Stuck(w) && IsRun(bypass, w, ms)
    ensures RunAll(bypass, w, ms).log == w.log && RunAll(bypass, w, ms).breaker.calls == w.breaker.calls
    decreases |ms|
  {
    if ms != [] {
      var m := ms[0];
      assert FlightOk(w);
      assert !m.Answered?;
      StepKeepsInv(bypass, w, m);
      NoMoreScans(bypass, After(bypass, w, m), ms[1..]);
    }
  }

  /** From then on, with bypass off, no non-empty body reaches the next handler or the client:
      not for a request that arrives later, nor for the answer of one already with the handler. */
  lemma OpenCircuitStopsBodies(w: World, ms: seq<Move>, id: nat)
    requires Inv(false, w) && Stuck(w) && IsRun(false, w, ms)
    requires id in RunAll(false, w, ms).requests
    requires id !in w.requests || w.requests[id].stage.Serving?
    ensures
      var q := RunAll(false, w, ms).requests[id];
      && (id !in w.requests && q.forwarded.Some? && q.forwarded.value.Bytes? ==>
            q.arrived == Body("") && q.forwarded.value.text == "")
      && (q.stage.Done? && q.stage.answer.FromHandler? ==> q.stage.answer.body == "")
  {
    var w' := RunAll(false, w, ms);
    var q := w'.requests[id];
    RunKeepsInv(false, w, ms);
    NoMoreScans(false, w, ms);
    assert RequestOk(false, w', id, q);
    if id in w.requests {
      assert RequestOk(false, w, id, w.requests[id]);
    }
    assert LogOk(w);
  }

  /** What arrived was handed on as it came; a request whose body broke was turned away. */
  predicate HandedOn(q: Request) {
    match q.arrived
    case Absent => q.forwarded == Some(NoBody)
    case Broken => q.forwarded.None? && q.stage == Done(Refused(BAD_REQUEST))
    case Body(text) => q.forwarded == Some(Bytes(text))
  }

  /** The handler is still at work, or its status and body were answered as they are. */
  predicate AnsweredAsIs(q: Request) {
    q.stage.Serving? ||
    (q.produced.Some? && q.stage == Done(FromHandler(q.produced.value.status, q.produced.value.body)))
  }

  predicate Untouched(q: Request) {
    HandedOn(q) && (q.arrived.Broken? || AnsweredAsIs(q))
  }

  lemma BypassedStep(w: World, m: Move)
    requires Possible(w, m) && Open(w.breaker.first, w.breaker.clock) && !m.Answered?
    ensures m.Arrive? ==> Untouched(Moved(true, w, m))
    ensures m.Finish? && Untouched(w.requests[m.id]) ==> Untouched(Moved(true, w, m))
    ensures m.Finish? ==> AnsweredAsIs(Moved(true, w, m))
  {
  }

  /** With bypass on, every later request is handed on exactly as it came and answered exactly as
      the handler answered it, and the shield is never asked about it; so is the answer of a
      request that was already with the handler. */
  lemma {:induction false} OpenCircuitBypassesBodies(w: World, ms: seq<Move>, id: nat)
    requires Inv(true, w) && Stuck(w) && IsRun(true, w, ms)
    requires id in RunAll(true, w, ms).requests
    ensures
      var w' := RunAll(true, w, ms);
      && w'.log == w.log && w'.breaker.calls == w.breaker.calls
      && (id !in w.requests || Untouched(w.requests[id]) ==> Untouched(w'.requests[id]))
      && (id in w.requests && AnsweredAsIs(w.requests[id]) ==> AnsweredAsIs(w'.requests[id]))
    decreases |ms|
  {
    NoMoreScans(true, w, ms);
    if ms != [] {
      var m := ms[0];
      assert FlightOk(w);
      StepKeepsInv(true, w, m);
      BypassedStep(w, m);
      hide Untouched, AnsweredAsIs, Moved, RequestOk, LogOk;
      OpenCircuitBypassesBodies(After(true, w, m), ms[1..], id);
    }
  }
}
