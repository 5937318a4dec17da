/** Walking a fallback chain: the request path, which relays one backend's response to the
    client, and the in-process path, which returns one backend's reply. What happens at each
    position is given: the answer of the health check made on arrival, which may differ from
    position to position, and what comes over the wire if the backend is called.
 */
module ChainWalk {

  /** `json`, `wellFormed` and `readable` are what response validation looks at. */
  datatype Wire =
    | Down
    | Reply(status: int, json: bool, wellFormed: bool, readable: bool, content: string)

  datatype Visit = Visit(healthy: bool, wire: Wire, consumed: nat)

  /** A response that validation refuses counts as a transport error. */
  predicate Refused(validate: bool, w: Wire) {
    w.Reply? && validate && w.json && (!w.readable || !w.wellFormed)
  }

  predicate TransportError(validate: bool, w: Wire) {
    w.Down? || Refused(validate, w)
  }

  predicate Serves(validate: bool, v: Visit) {
    v.healthy && !TransportError(validate, v.wire)
  }

  /** The first position from i on that serves, or the length of the chain. */
  function FirstServing(validate: bool, visits: seq<Visit>, i: nat): (k: nat)
    requires i <= |visits|
    ensures i <= k <= |visits|
    ensures k < |visits| ==> Serves(validate, visits[k])
    ensures forall j :: i <= j < k ==> !Serves(validate, visits[j])
    decreases |visits| - i
  {
    if i == |visits| || Serves(validate, visits[i]) then i else FirstServing(validate, visits, i + 1)
  }

  /** What reached a backend. */
  datatype Sent = Sent(backend: string, body: string, contentLength: nat)

  datatype Response =
    | Relayed(backend: string, status: int, fallback: bool)
    | Unavailable(model: string, chain: seq<string>)

  datatype Observation = Observation(backend: string, status: int)

  class Network {
    var sent: seq<Sent>

    constructor ()
      ensures sent == []
    {
      sent := [];
    }
  }

  class ClientWriter {
    var written: seq<Response>

    constructor ()
      ensures written == []
    {
      written := [];
    }
  }

  class Request {
    var unread: string
    var contentLength: nat

    constructor (body: string)
      ensures unread == body && contentLength == |body|
    {
      unread := body;
      contentLength := |body|;
    }
  }

  /** One reverse-proxied call. It uses up part of the request body whatever its outcome, and
      writes to the client only when it is not a transport error. */
  method ForwardAttempt(net: Network, w: ClientWriter, r: Request, backend: string, isFallback: bool,
                        validate: bool, v: Visit) returns (transportErr: bool, status: int)
    modifies net, w, r
    ensures net.sent == old(net.sent) + [Sent(backend, old(r.unread), old(r.contentLength))]
    ensures transportErr == TransportError(validate, v.wire)
    ensures transportErr ==> w.written == old(w.written)
    ensures !transportErr ==>
              status == v.wire.status && w.written == old(w.written) + [Relayed(backend, status, isFallback)]
  {
    net.sent := net.sent + [Sent(backend, r.unread, r.contentLength)];
    r.unread := if v.consumed <= |r.unread| then r.unread[v.consumed..] else [];
    status := 200;
    match v.wire {
      case Down =>
        transportErr := true;
      case Reply(code, json, wellFormed, readable, content) =>
        if validate && json && (!readable || !wellFormed) {
          transportErr := true;
        } else {
          transportErr := false;
          status := code;
          w.written := w.written + [Relayed(backend, status, isFallback)];
        }
    }
  }

  /** The calls made for positions before n: every healthy one, each with the whole body. */
  function CallsBefore(chain: seq<string>, visits: seq<Visit>, body: string, n: nat): seq<Sent>
    requires |visits| == |chain| && n <= |chain|
  {
    if n == 0 then []
    else
      CallsBefore(chain, visits, body, n - 1)
      + (if visits[n - 1].healthy then [Sent(chain[n - 1], body, |body|)] else [])
  }

  /** The one response the client gets. */
  function ClientSees(model: string, chain: seq<string>, validate: bool, visits: seq<Visit>): Response
    requires |visits| == |chain|
  {
    var k := FirstServing(validate, visits, 0);
    if k < |chain| then Relayed(chain[k], visits[k].wire.status, k > 0) else Unavailable(model, chain)
  }

  lemma OneVisit(chain: seq<string>, validate: bool, visits: seq<Visit>, body: string, i: nat)
    requires |visits| == |chain| && i <= |chain|
    ensures FirstServing(validate, visits, |chain|) == |chain| && CallsBefore(chain, visits, body, 0) == []
    ensures i < |chain| ==>
              && FirstServing(validate, visits, i) == (if Serves(validate, visits[i]) then i else FirstServing(validate, visits, i + 1))
              && CallsBefore(chain, visits, body, i + 1)
                 == CallsBefore(chain, visits, body, i) + (if visits[i].healthy then [Sent(chain[i], body, |body|)] else [])
  {
  }

  method ForwardChain(net: Network, w: ClientWriter, r: Request, model: string, chain: seq<string>,
                      body: string, validate: bool, visits: seq<Visit>) returns (seen: Observation)
    requires |visits| == |chain|
    modifies net, w, r
    ensures w.written == old(w.written) + [ClientSees(model, chain, validate, visits)]
    ensures
      var k := FirstServing(validate, visits, 0);
      && net.sent == old(net.sent) + CallsBefore(chain, visits, body, if k < |chain| then k + 1 else k)
      && seen == if k < |chain| then Observation(chain[k], visits[k].wire.status) else Observation("none", 503)
  {
    hide FirstServing, CallsBefore;
    var tried: seq<string> := [];
    var i := 0;
    assert FirstServing(validate, visits, |chain|) == |chain| && CallsBefore(chain, visits, body, 0) == [] by {
      OneVisit(chain, validate, visits, body, 0);
    }
    while i < |chain|
      invariant i <= |chain| && |tried| == i
      invariant FirstServing(validate, visits, 0) == FirstServing(validate, visits, i)
      invariant w.written == old(w.written)
      invariant net.sent == old(net.sent) + CallsBefore(chain, visits, body, i)
    {
      var backend := chain[i];
      OneVisit(chain, validate, visits, body, i);
      if !visits[i].healthy {
        tried := tried + [backend];
        i := i + 1;
        continue;
      }
      r.unread := body;
      r.contentLength := |body|;
      var isFallback := |tried| > 0;
      var transportErr, status := ForwardAttempt(net, w, r, backend, isFallback, validate, visits[i]);
      if !transportErr {
        return Observation(backend, status);
      }
      tried := tried + [backend];
      i := i + 1;
    }
    w.written := w.written + [Unavailable(model, chain)];
    return Observation("none", 503);
  }

  /** Read without the recursion: the client sees the first backend in chain order that is
      healthy when reached and does not fail in transport, marked as a fallback exactly when
      it is not the head of the chain; and 503 exactly when there is none. */
  lemma ClientSeesFirstServing(model: string, chain: seq<string>, validate: bool, visits: seq<Visit>, k: nat)
    requires |visits| == |chain| && k < |chain|
    ensures
      (Serves(validate, visits[k]) && forall j :: 0 <= j < k ==> !Serves(validate, visits[j])) <==>
      k == FirstServing(validate, visits, 0)
    ensures k == FirstServing(validate, visits, 0) ==>
              ClientSees(model, chain, validate, visits) == Relayed(chain[k], visits[k].wire.status, k > 0)
    ensures ClientSees(model, chain, validate, visits).Unavailable? <==>
              forall j :: 0 <= j < |visits| ==> !Serves(validate, visits[j])
  {
  }

  /** Every call carries the full body and its length, however much earlier calls consumed. */
  lemma {:induction false} CallsCarryWholeBody(chain: seq<string>, visits: seq<Visit>, body: string, n: nat)
    requires |visits| == |chain| && n <= |chain|
    ensures forall c :: c in CallsBefore(chain, visits, body, n) ==> c.body == body && c.contentLength == |body|
    ensures forall i :: 0 <= i < n && visits[i].healthy ==> Sent(chain[i], body, |body|) in CallsBefore(chain, visits, body, n)
    ensures forall c :: c in CallsBefore(chain, visits, body, n) ==> exists i :: 0 <= i < n && visits[i].healthy && c.backend == chain[i]
  {
    if n > 0 {
      CallsCarryWholeBody(chain, visits, body, n - 1);
    }
  }

  // ----- The in-process path -----

  datatype CallResult =
    | UnknownModel
    | Exhausted
    | ReadFailed(position: nat)
    | Answered(position: nat, content: string)

  /** Where the in-process walk stops: the first healthy backend that is reachable. */
  function FirstReachable(visits: seq<Visit>, i: nat): (k: nat)
    requires i <= |visits|
    ensures i <= k <= |visits|
    ensures k < |visits| ==> visits[k].healthy && visits[k].wire.Reply?
    ensures forall j :: i <= j < k ==> !(visits[j].healthy && visits[j].wire.Reply?)
    decreases |visits| - i
  {
    if i == |visits| || (visits[i].healthy && visits[i].wire.Reply?) then i else FirstReachable(visits, i + 1)
  }

  method BackendCaller(chains: map<string, seq<string>>, model: string, visits: seq<Visit>) returns (result: CallResult)
    requires model in chains ==> |visits| == |chains[model]|
    ensures model !in chains ==> result == UnknownModel
    ensures model in chains ==>
              var k := FirstReachable(visits, 0);
              result == if k == |visits| then Exhausted
                        else if visits[k].wire.readable then Answered(k, visits[k].wire.content)
                        else ReadFailed(k)
  {
    if model !in chains {
      return UnknownModel;
    }
    var chain := chains[model];
    for i := 0 to |chain|
      invariant FirstReachable(visits, 0) == FirstReachable(visits, i)
    {
      if !visits[i].healthy {
        continue;
      }
      if visits[i].wire.Down? {
        continue;
      }
      if !visits[i].wire.readable {
        return ReadFailed(i);
      }
      return Answered(i, visits[i].wire.content);
    }
    return Exhausted;
  }

  /** For the same outcomes the two walks stop at the same backend, unless response
      validation refuses the very reply the in-process walk would take. */
  lemma WalksAgreeExactly(validate: bool, visits: seq<Visit>)
    ensures
      var k := FirstReachable(visits, 0);
      FirstServing(validate, visits, 0) == k <==> !(k < |visits| && Refused(validate, visits[k].wire))
  {
    var k, f := FirstReachable(visits, 0), FirstServing(validate, visits, 0);
    if f < |visits| {
      assert visits[f].healthy && visits[f].wire.Reply?;
    }
  }

  /** With validation off they always agree. */
  lemma WalksAgree(visits: seq<Visit>)
    ensures FirstServing(false, visits, 0) == FirstReachable(visits, 0)
  {
    WalksAgreeExactly(false, visits);
  }

  /** They can differ: a malformed JSON reply is refused on the request path and taken in process. */
  lemma WalksCanDiffer()
    ensures
      var visits := [Visit(true, Reply(200, true, false, true, "x"), 0)];
      FirstServing(true, visits, 0) == 1 && FirstReachable(visits, 0) == 0
  {
  }

  /** The only backend of a chain is passed over exactly when it is unhealthy, cannot be reached,
      or validation is on and its reply is JSON that cannot be read to the end or lacks what a
      completion has. */
  lemma PassedOverExactly(model: string, backend: string, validate: bool, visit: Visit)
    ensures
      ClientSees(model, [backend], validate, [visit]) == Unavailable(model, [backend]) <==>
      !visit.healthy || visit.wire == Down ||
      (validate && visit.wire.json && !(visit.wire.readable && visit.wire.wellFormed))
  {
  }

  /** How many of the first n positions are healthy when visited. */
  function HealthyBefore(visits: seq<Visit>, n: nat): (k: nat)
    requires n <= |visits|
    ensures k <= n
  {
    if n == 0 then 0 else HealthyBefore(visits, n - 1) + (if visits[n - 1].healthy then 1 else 0)
  }

  /** One call for each healthy position, in chain order. */
  lemma {:induction false} CallsInChainOrder(chain: seq<string>, visits: seq<Visit>, body: string, n: nat)
    requires |visits| == |chain| && n <= |chain|
    ensures |CallsBefore(chain, visits, body, n)| == HealthyBefore(visits, n)
    ensures forall i :: 0 <= i < n && visits[i].healthy ==>
              HealthyBefore(visits, i) < HealthyBefore(visits, n) &&
              CallsBefore(chain, visits, body, n)[HealthyBefore(visits, i)] == Sent(chain[i], body, |body|)
  {
    if n > 0 {
      CallsInChainOrder(chain, visits, body, n - 1);
    }
  }
}
