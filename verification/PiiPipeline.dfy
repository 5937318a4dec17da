/** The PII middleware: a request body is scanned before the next handler sees it, and the
    handler's body is held back until it has been scanned too. Requests overlap and share one
    circuit breaker.
 */
module PiiPipeline {
  import opened Options
  import opened PiiBreaker

  datatype Incoming = Absent | Broken | Body(text: string)

  /** What the next handler is given to read. */
  datatype Handed = NoBody | Bytes(text: string)

  /** What the next handler wrote. */
  datatype Recorded = Recorded(status: int, body: string)

  datatype Answer = Refused(status: int) | FromHandler(status: int, body: string)

  datatype Stage = CheckingInput | Serving | CheckingOutput | Done(answer: Answer)

  datatype Request = Request(
    agent: string,
    arrived: Incoming,
    forwarded: Option<Handed>,
    produced: Option<Recorded>,
    stage: Stage)

  datatype Gate = Pass(text: string) | Stop(status: int)

  const BAD_REQUEST := 400
  const FORBIDDEN := 403
  const UNAVAILABLE := 503

  const INPUT := "input"
  const OUTPUT := "output"

  // ----- What one request does -----

  function AgentOf(header: string): string {
    if header == "" then "__unknown__" else header
  }

  function Judge(text: string, result: ScanResult): Gate {
    if result.Err? then Stop(UNAVAILABLE)
    else if result.response.decision == "block" then Stop(FORBIDDEN)
    else if result.response.decision == "redact" then Pass(result.response.sanitizedText)
    else Pass(text)
  }

  function ToHandler(q: Request, gate: Gate): Request {
    match gate
    case Pass(text) => q.(forwarded := Some(Bytes(text)), stage := Serving)
    case Stop(status) => q.(stage := Done(Refused(status)))
  }

  function ToClient(q: Request, status: int, gate: Gate): Request {
    match gate
    case Pass(text) => q.(stage := Done(FromHandler(status, text)))
    case Stop(code) => q.(stage := Done(Refused(code)))
  }

  function OnArrive(bypass: bool, first: Option<int>, header: string, arrived: Incoming, now: int): Request {
    var q := Request(AgentOf(header), arrived, None, None, Serving);
    match arrived
    case Absent => q.(forwarded := Some(NoBody))
    case Broken => q.(stage := Done(Refused(BAD_REQUEST)))
    case Body(text) =>
      if text == "" then ToHandler(q, Pass(text))
      else if Open(first, now) then ToHandler(q, Judge(text, ShortResult(bypass, text)))
      else q.(stage := CheckingInput)
  }

  function OnFinish(bypass: bool, first: Option<int>, q: Request, recorded: Recorded, now: int): Request {
    var q' := q.(produced := Some(recorded));
    if recorded.body == "" then ToClient(q', recorded.status, Pass(recorded.body))
    else if Open(first, now) then
      ToClient(q', recorded.status, Judge(recorded.body, ShortResult(bypass, recorded.body)))
    else q'.(stage := CheckingOutput)
  }

  /** The text a request is having scanned. */
  function Scanned(q: Request): string {
    if q.stage.CheckingInput? && q.arrived.Body? then q.arrived.text
    else if q.stage.CheckingOutput? && q.produced.Some? then q.produced.value.body
    else ""
  }

  function OnReply(bypass: bool, q: Request, reply: Reply): Request {
    var gate := Judge(Scanned(q), ReplyResult(bypass, Scanned(q), reply));
    if q.stage.CheckingInput? then ToHandler(q, gate)
    else if q.stage.CheckingOutput? && q.produced.Some? then ToClient(q, q.produced.value.status, gate)
    else q
  }

  predicate Waiting(q: Request) {
    q.stage.CheckingInput? || q.stage.CheckingOutput?
  }

  /** What the shield is sent for a request that waits. */
  function Sent(q: Request): ScanRequest {
    ScanRequest(q.agent, if q.stage.CheckingInput? then INPUT else OUTPUT, Scanned(q))
  }

  // ----- The middleware itself -----

  /** One thing a handler does with its response writer. */
  datatype Call = WriteHeader(status: int) | Write(bytes: string)

  function StatusAfter(status: int, calls: seq<Call>): int
    decreases |calls|
  {
    if calls == [] then status
    else StatusAfter(if calls[0].WriteHeader? then calls[0].status else status, calls[1..])
  }

  function BytesOf(calls: seq<Call>): string
    decreases |calls|
  {
    if calls == [] then ""
    else (if calls[0].Write? then calls[0].bytes else "") + BytesOf(calls[1..])
  }

  /** The status kept is the last one set, or the one at the start if none is. */
  lemma {:induction false} LastStatusWins(status: int, a: seq<Call>, code: int, b: seq<Call>)
    requires forall i :: 0 <= i < |b| ==> !b[i].WriteHeader?
    ensures StatusAfter(status, b) == status && StatusAfter(status, a + [WriteHeader(code)] + b) == code
    decreases |a| + |b|
  {
    var calls := a + [WriteHeader(code)] + b;
    if b != [] {
      LastStatusWins(status, [], code, b[1..]);
      LastStatusWins(code, [], code, b[1..]);
    }
    if a == [] {
      assert calls[0] == WriteHeader(code) && calls[1..] == b;
    } else {
      assert calls[0] == a[0] && calls[1..] == a[1..] + [WriteHeader(code)] + b;
      LastStatusWins(if a[0].WriteHeader? then a[0].status else status, a[1..], code, b);
    }
  }

  /** Everything written is kept, in order. */
  lemma {:induction false} BytesInOrder(a: seq<Call>, call: Call, b: seq<Call>)
    ensures BytesOf(a + [call] + b) == BytesOf(a) + (if call.Write? then call.bytes else "") + BytesOf(b)
    ensures BytesOf([]) == ""
    decreases |a|
  {
    var calls := a + [call] + b;
    if a == [] {
      assert calls[0] == call && calls[1..] == b;
    } else {
      assert calls[0] == a[0] && calls[1..] == a[1..] + [call] + b;
      BytesInOrder(a[1..], call, b);
    }
  }

  /** Buffers what the wrapped handler writes; nothing reaches the client through it. */
  class BodyRecorder {
    var buf: string
    var status: int

    constructor ()
      ensures buf == "" && status == 200
    {
      buf := "";
      status := 200;
    }

    method WriteHeader(code: int)
      modifies this`status
      ensures status == code
    {
      status := code;
    }

    method Write(bytes: string)
      modifies this`buf
      ensures buf == old(buf) + bytes
    {
      buf := buf + bytes;
    }
  }

  /** The wrapped handler's calls, in order, on a recorder. */
  method Record(rec: BodyRecorder, calls: seq<Call>)
    modifies rec
    ensures rec.status == StatusAfter(old(rec.status), calls)
    ensures rec.buf == old(rec.buf) + BytesOf(calls)
  {
    for i := 0 to |calls|
      invariant StatusAfter(rec.status, calls[i..]) == StatusAfter(old(rec.status), calls)
      invariant rec.buf + BytesOf(calls[i..]) == old(rec.buf) + BytesOf(calls)
    {
      match calls[i] {
        case WriteHeader(code) => rec.WriteHeader(code);
        case Write(bytes) => rec.Write(bytes);
      }
      assert calls[i..][0] == calls[i] && calls[i..][1..] == calls[i + 1..];
      assert rec.buf + BytesOf(calls[i + 1..]) == old(rec.buf) + BytesOf(calls);
    }
  }

  /** When the breaker is looked at and the shield's answer lands, and what that answer is. */
  datatype Timing = Timing(checked: int, reply: Reply, landed: int)

  /** Where a phase of one request, run alone, leaves the request and the stored failure time,
      and what it sent to the shield. */
  datatype PhaseEnd = PhaseEnd(q: Request, first: Option<int>, sent: seq<ScanRequest>)

  function Settled(bypass: bool, first: Option<int>, q: Request, t: Timing): PhaseEnd {
    if Waiting(q) then PhaseEnd(OnReply(bypass, q, t.reply), AfterReply(first, t.reply, t.landed), [Sent(q)])
    else PhaseEnd(q, first, [])
  }

  function InputPhase(bypass: bool, first: Option<int>, header: string, arrived: Incoming, t: Timing): PhaseEnd {
    Settled(bypass, first, OnArrive(bypass, first, header, arrived, t.checked), t)
  }

  function OutputPhase(bypass: bool, first: Option<int>, q: Request, recorded: Recorded, t: Timing): PhaseEnd {
    Settled(bypass, first, OnFinish(bypass, first, q, recorded, t.checked), t)
  }

  datatype Filtering = Filtering(gate: Gate, first: Option<int>, sent: seq<ScanRequest>)

  /** What becomes of a body, and of the stored failure time, when it is scanned alone. */
  function Filtered(bypass: bool, first: Option<int>, request: ScanRequest, t: Timing): Filtering {
    var text := request.text;
    if text == "" then Filtering(Pass(text), first, [])
    else if Open(first, t.checked) then Filtering(Judge(text, ShortResult(bypass, text)), first, [])
    else Filtering(Judge(text, ReplyResult(bypass, text, t.reply)), AfterReply(first, t.reply, t.landed), [request])
  }

  /** The scan both phases make of a body they hold. */
  method Filter(client: Client, agentID: string, direction: string, text: string, t: Timing)
    returns (gate: Gate, sent: seq<ScanRequest>)
    requires client.cbTimeout == CB_TIMEOUT
    modifies client`firstFailure
    ensures Filtering(gate, client.firstFailure, sent)
            == Filtered(client.bypassOnFailure, old(client.firstFailure), ScanRequest(agentID, direction, text), t)
  {
    sent := [];
    if |text| == 0 {
      return Pass(text), sent;
    }
    var request, result := client.Scan(agentID, direction, text, t.checked, t.reply, t.landed);
    sent := if request.Some? then [request.value] else [];
    match result {
      case Err(_) => gate := Stop(UNAVAILABLE);
      case Ok(response) =>
        if response.decision == "block" {
          gate := Stop(FORBIDDEN);
        } else if response.decision == "redact" {
          gate := Pass(response.sanitizedText);
        } else {
          gate := Pass(text);
        }
    }
  }

  lemma InputPhaseFilters(bypass: bool, first: Option<int>, header: string, text: string, t: Timing)
    ensures
      var agent := AgentOf(header);
      var f := Filtered(bypass, first, ScanRequest(agent, INPUT, text), t);
      InputPhase(bypass, first, header, Body(text), t)
      == PhaseEnd(ToHandler(Request(agent, Body(text), None, None, CheckingInput), f.gate), f.first, f.sent)
  {
  }

  lemma OutputPhaseFilters(bypass: bool, first: Option<int>, q: Request, recorded: Recorded, t: Timing)
    ensures
      var f := Filtered(bypass, first, ScanRequest(q.agent, OUTPUT, recorded.body), t);
      OutputPhase(bypass, first, q, recorded, t)
      == PhaseEnd(ToClient(q.(produced := Some(recorded)), recorded.status, f.gate), f.first, f.sent)
  {
  }

  /** One request with no other request's scans in between; `handler` is what the next handler
      does when given its body. */
  method Middleware(client: Client, header: string, arrived: Incoming, handler: Handed -> seq<Call>, inT: Timing, outT: Timing)
    returns (handed: Option<Handed>, sent: seq<ScanRequest>, answer: Answer)
    requires client.cbTimeout == CB_TIMEOUT
    modifies client`firstFailure
    ensures
      var p := InputPhase(client.bypassOnFailure, old(client.firstFailure), header, arrived, inT);
      && handed == p.q.forwarded
      && (handed.None? ==> p.q.stage == Done(answer) && client.firstFailure == p.first && sent == p.sent)
      && (handed.Some? ==>
            var calls := handler(handed.value);
            var recorded := Recorded(StatusAfter(200, calls), BytesOf(calls));
            var o := OutputPhase(client.bypassOnFailure, p.first, p.q, recorded, outT);
            && o.q == p.q.(produced := Some(recorded), stage := Done(answer))
            && client.firstFailure == o.first && sent == p.sent + o.sent)
  {
    var agentID := AgentOf(header);
    handed := None;
    sent := [];
    var body := NoBody;
    match arrived {
      case Absent =>
      case Broken =>
        answer := Refused(BAD_REQUEST);
        return;
      case Body(text) =>
        InputPhaseFilters(client.bypassOnFailure, client.firstFailure, header, text, inT);
        var gate, asked := Filter(client, agentID, INPUT, text, inT);
        sent := asked;
        if gate.Stop? {
          answer := Refused(gate.status);
          return;
        }
        body := Bytes(gate.text);
    }
    handed := Some(body);
    var rec := new BodyRecorder();
    Record(rec, handler(body));
    ghost var recorded := Recorded(StatusAfter(200, handler(body)), BytesOf(handler(body)));
    assert rec.buf == recorded.body;
    ghost var q := InputPhase(client.bypassOnFailure, old(client.firstFailure), header, arrived, inT).q;
    OutputPhaseFilters(client.bypassOnFailure, client.firstFailure, q, recorded, outT);
    var gate, asked := Filter(client, agentID, OUTPUT, rec.buf, outT);
    sent := sent + asked;
    match gate {
      case Stop(code) => answer := Refused(code);
      case Pass(text) => answer := FromHandler(rec.status, text);
    }
  }
}
