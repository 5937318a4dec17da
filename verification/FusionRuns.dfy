/** The concurrent parts of a fusion request: the parallel fan-out to the panel with its
    quorum, and the bounded channel that carries a streamed answer to the client.
 */
module FusionRuns {
  import opened TextSearch
  import opened Whitespace
  import opened Prompts

  // ----- Panels -----

  datatype PanelConfig = PanelConfig(panelists: seq<string>, judge: string, synth: string, deliberator: string, timeoutMs: int, minQuorum: int)

  /** Defaults of a configured panel: a quorum of two, or of one for a single panelist. */
  method ResolvePanel(cp: PanelConfig) returns (p: PanelConfig)
    ensures p.panelists == cp.panelists && p.judge == cp.judge && p.synth == cp.synth
    ensures p.deliberator == if cp.deliberator == "" then "glm-5.1" else cp.deliberator
    ensures p.timeoutMs == if cp.timeoutMs == 0 then 60000 else cp.timeoutMs
    ensures cp.minQuorum != 0 ==> p.minQuorum == cp.minQuorum
    ensures cp.minQuorum == 0 ==> p.minQuorum == if |cp.panelists| < 2 then |cp.panelists| else 2
  {
    p := cp;
    if p.deliberator == "" {
      p := p.(deliberator := "glm-5.1");
    }
    if p.timeoutMs == 0 {
      p := p.(timeoutMs := 60000);
    }
    if p.minQuorum == 0 {
      p := p.(minQuorum := if 2 <= |p.panelists| then 2 else |p.panelists|);
    }
  }

  function DefaultQuorum(panelists: seq<string>): nat {
    if |panelists| < 2 then |panelists| else 2
  }

  // ----- Fan-out -----

  /** What one call comes back with. */
  datatype CallOutcome = Failed(message: string) | Replied(response: Response)

  /** What is stored for a panelist: its own name, whatever the reply says. */
  function Stored(panelist: string, o: CallOutcome): Response {
    match o
    case Failed(message) => Response(panelist, "", "call failed: " + message)
    case Replied(r) => r.(model := panelist)
  }

  datatype Stage = Calling | Returned | Gone

  const EMPTY := Response("", "", "")

  /** One goroutine per panelist, a shared slice of results, and the wait group's counter. */
  datatype FanOut = FanOut(stages: seq<Stage>, results: seq<Response>, waiting: int)

  datatype FanStep = Return(i: nat) | Write(i: nat)

  function Launch(n: nat): FanOut {
    FanOut(seq(n, _ => Calling), seq(n, _ => EMPTY), n)
  }

  predicate CanStep(s: FanOut, step: FanStep) {
    && step.i < |s.stages| == |s.results|
    && s.stages[step.i] == (if step.Return? then Calling else Returned)
  }

  function Step(panel: seq<string>, outcomes: seq<CallOutcome>, s: FanOut, step: FanStep): FanOut
    requires CanStep(s, step) && |s.stages| == |panel| == |outcomes|
  {
    match step
    case Return(i) => s.(stages := s.stages[i := Returned])
    case Write(i) =>
      FanOut(s.stages[i := Gone], s.results[i := Stored(panel[i], outcomes[i])], s.waiting - 1)
  }

  predicate FanRuns(panel: seq<string>, outcomes: seq<CallOutcome>, s: FanOut, run: seq<FanStep>, s': FanOut)
    requires |panel| == |outcomes|
    decreases |run|
  {
    if run == [] then s' == s
    else
      && |s.stages| == |panel|
      && CanStep(s, run[0])
      && FanRuns(panel, outcomes, Step(panel, outcomes, s, run[0]), run[1..], s')
  }

  function Unfinished(stages: seq<Stage>): nat {
    if stages == [] then 0
    else Unfinished(stages[..|stages| - 1]) + (if stages[|stages| - 1] == Gone then 0 else 1)
  }

  predicate FanInv(panel: seq<string>, outcomes: seq<CallOutcome>, s: FanOut)
    requires |panel| == |outcomes|
  {
    && |s.stages| == |s.results| == |panel|
    && s.waiting == Unfinished(s.stages)
    && forall i :: 0 <= i < |panel| ==>
         s.results[i] == if s.stages[i] == Gone then Stored(panel[i], outcomes[i]) else EMPTY
  }

  lemma {:induction false} UnfinishedUpdate(stages: seq<Stage>, i: nat, st: Stage)
    requires i < |stages|
    ensures Unfinished(stages[i := st]) ==
            Unfinished(stages) - (if stages[i] == Gone then 0 else 1) + (if st == Gone then 0 else 1)
  {
    var n := |stages| - 1;
    var changed := stages[i := st];
    if i == n {
      assert changed[..n] == stages[..n];
    } else {
      assert changed[..n] == stages[..n][i := st];
      UnfinishedUpdate(stages[..n], i, st);
    }
  }

  lemma {:induction false} UnfinishedZero(stages: seq<Stage>)
    ensures Unfinished(stages) == 0 <==> forall i :: 0 <= i < |stages| ==> stages[i] == Gone
  {
    if stages != [] {
      UnfinishedZero(stages[..|stages| - 1]);
    }
  }

  lemma {:induction false} UnfinishedAll(stages: seq<Stage>)
    requires forall i :: 0 <= i < |stages| ==> stages[i] == Calling
    ensures Unfinished(stages) == |stages|
  {
    if stages != [] {
      UnfinishedAll(stages[..|stages| - 1]);
    }
  }

  lemma {:induction false} FanRunKeepsInv(panel: seq<string>, outcomes: seq<CallOutcome>, s: FanOut, run: seq<FanStep>, s': FanOut)
    requires |panel| == |outcomes| && FanInv(panel, outcomes, s) && FanRuns(panel, outcomes, s, run, s')
    ensures FanInv(panel, outcomes, s')
    decreases |run|
  {
    if run != [] {
      var step := run[0];
      UnfinishedUpdate(s.stages, step.i, if step.Return? then Returned else Gone);
      FanRunKeepsInv(panel, outcomes, Step(panel, outcomes, s, step), run[1..], s');
    }
  }

  /** The results the panel would give one after the other. */
  function InOrder(panel: seq<string>, outcomes: seq<CallOutcome>): (rs: seq<Response>)
    requires |panel| == |outcomes|
    ensures |rs| == |panel|
  {
    seq(|panel|, i requires 0 <= i < |panel| => Stored(panel[i], outcomes[i]))
  }

  /** However the goroutines interleave, once the wait group has drained every result is its
      own panelist's, under that panelist's name; and until then some goroutine can move. */
  lemma FanOutIsScheduleIndependent(panel: seq<string>, outcomes: seq<CallOutcome>, run: seq<FanStep>, s: FanOut)
    requires |panel| == |outcomes| && FanRuns(panel, outcomes, Launch(|panel|), run, s)
    ensures s.waiting >= 0
    ensures s.waiting == 0 ==> s.results == InOrder(panel, outcomes)
    ensures s.waiting == 0 ==> |s.results| == |panel|
    ensures s.waiting == 0 ==> forall i :: 0 <= i < |panel| ==> s.results[i].model == panel[i]
    ensures s.waiting == 0 ==> forall i :: 0 <= i < |panel| && outcomes[i].Replied? ==>
              s.results[i].content == outcomes[i].response.content && s.results[i].error == outcomes[i].response.error
    ensures s.waiting == 0 ==> forall i :: 0 <= i < |panel| && outcomes[i].Failed? ==>
              s.results[i].content == "" && s.results[i].error == "call failed: " + outcomes[i].message
    ensures s.waiting > 0 ==> exists step :: CanStep(s, step)
  {
    UnfinishedAll(Launch(|panel|).stages);
    FanRunKeepsInv(panel, outcomes, Launch(|panel|), run, s);
    UnfinishedZero(s.stages);
    if s.waiting > 0 {
      var i :| 0 <= i < |s.stages| && s.stages[i] != Gone;
      assert CanStep(s, if s.stages[i] == Calling then Return(i) else Write(i));
    }
  }

  // ----- Quorum -----

  /** How many calls came back with a usable answer. */
  function Usable(outcomes: seq<CallOutcome>): (n: nat)
    ensures n <= |outcomes|
  {
    if outcomes == [] then 0
    else
      var o := outcomes[|outcomes| - 1];
      Usable(outcomes[..|outcomes| - 1]) + (if o.Replied? && IsValid(o.response) then 1 else 0)
  }

  lemma {:induction false} ValidCounts(panel: seq<string>, outcomes: seq<CallOutcome>)
    requires |panel| == |outcomes|
    ensures |Valid(InOrder(panel, outcomes))| == Usable(outcomes)
  {
    if panel != [] {
      var n := |panel| - 1;
      ValidCounts(panel[..n], outcomes[..n]);
      assert InOrder(panel, outcomes)[..n] == InOrder(panel[..n], outcomes[..n]);
      assert outcomes[n].Failed? ==> InOrder(panel, outcomes)[n].error[0] == 'c';
    }
  }

  /** One more call counts exactly when it replied, without an error and with some content. */
  lemma UsableGrows(outcomes: seq<CallOutcome>, o: CallOutcome)
    ensures Usable([]) == 0
    ensures Usable(outcomes + [o])
         == Usable(outcomes) + (if o.Replied? && o.response.error == "" && o.response.content != "" then 1 else 0)
  {
    assert (outcomes + [o])[..|outcomes|] == outcomes;
  }

  /** The quorum verdict is the count of usable replies, whatever the schedule; a default
      quorum lies between one and the panel size, so a fully answering panel meets it. */
  lemma QuorumVerdict(panel: seq<string>, outcomes: seq<CallOutcome>, run: seq<FanStep>, s: FanOut)
    requires |panel| == |outcomes| && FanRuns(panel, outcomes, Launch(|panel|), run, s) && s.waiting == 0
    ensures |Valid(s.results)| == Usable(outcomes)
    ensures panel != [] ==> 1 <= DefaultQuorum(panel) <= |panel|
    ensures Usable(outcomes) == |panel| ==> |Valid(s.results)| >= DefaultQuorum(panel)
    ensures forall need, synth ::
              Concluded(s.results, need, synth)
              == if Usable(outcomes) >= need then Text(synth) else QuorumMissed(Usable(outcomes), |panel|, need)
  {
    FanOutIsScheduleIndependent(panel, outcomes, run, s);
    ValidCounts(panel, outcomes);
  }

  // ----- The answer, whole and in chunks -----

  /** What the pipeline arrives at after the fan-out. */
  datatype Answer =
    | QuorumMissed(got: nat, of: nat, need: nat)
    | Text(content: string)

  /** The shared tail of both entry points: quorum, then the synthesised text. */
  function Concluded(results: seq<Response>, minQuorum: int, synth: string): Answer {
    if |Valid(results)| < minQuorum then QuorumMissed(|Valid(results)|, |results|, minQuorum) else Text(synth)
  }

  datatype Chunk = Chunk(content: string, finish: string)

  const STOP := Chunk("", "stop")

  function Notice(got: nat, of: nat, need: nat): string {
    "[Fusion error: quorum not met — " + Itoa(got) + "/" + Itoa(of) + " panelists answered, need " + Itoa(need) + "]"
  }

  function WordChunks(words: seq<string>): (chunks: seq<Chunk>)
    ensures |chunks| == |words|
    ensures forall i :: 0 <= i < |words| ==> chunks[i] == Chunk(words[i] + " ", "")
  {
    seq(|words|, i requires 0 <= i < |words| => Chunk(words[i] + " ", ""))
  }

  function Script(a: Answer): seq<Chunk> {
    match a
    case QuorumMissed(got, of, need) => [Chunk(Notice(got, of, need), ""), STOP]
    case Text(content) => WordChunks(Fields(content)) + [STOP]
  }

  /** The producer's sends, in the order it makes them. */
  method StreamAnswer(results: seq<Response>, minQuorum: int, synth: string) returns (sends: seq<Chunk>)
    ensures sends == Script(Concluded(results, minQuorum, synth))
  {
    hide Fields, Notice;
    sends := [];
    var valid := FilterValid(results);
    if |valid| < minQuorum {
      sends := sends + [Chunk(Notice(|valid|, |results|, minQuorum), "")];
      sends := sends + [Chunk("", "stop")];
      return;
    }
    var words := Fields(synth);
    for i := 0 to |words|
      invariant sends == WordChunks(words)[..i]
    {
      sends := sends + [Chunk(words[i] + " ", "")];
    }
    assert WordChunks(words)[..|words|] == WordChunks(words);
    sends := sends + [Chunk("", "stop")];
  }

  // ----- The channel -----

  const CAPACITY := 64

  /** A producer that sends a script and closes, a consumer that drains until closed. */
  datatype Stream = Stream(sent: nat, buffer: seq<Chunk>, closed: bool, received: seq<Chunk>, finished: bool)

  datatype Move = Send | Close | Receive | Finish

  const OPENED := Stream(0, [], false, [], false)

  predicate CanMove(script: seq<Chunk>, s: Stream, m: Move) {
    match m
    case Send => s.sent < |script| && !s.closed && |s.buffer| < CAPACITY
    case Close => s.sent == |script| && !s.closed
    case Receive => s.buffer != [] && !s.finished
    case Finish => s.buffer == [] && s.closed && !s.finished
  }

  function Moved(script: seq<Chunk>, s: Stream, m: Move): Stream
    requires CanMove(script, s, m)
  {
    match m
    case Send => s.(sent := s.sent + 1, buffer := s.buffer + [script[s.sent]])
    case Close => s.(closed := true)
    case Receive => s.(received := s.received + [s.buffer[0]], buffer := s.buffer[1..])
    case Finish => s.(finished := true)
  }

  predicate Plays(script: seq<Chunk>, s: Stream, moves: seq<Move>, s': Stream)
    decreases |moves|
  {
    if moves == [] then s' == s
    else CanMove(script, s, moves[0]) && Plays(script, Moved(script, s, moves[0]), moves[1..], s')
  }

  predicate StreamInv(script: seq<Chunk>, s: Stream) {
    && s.sent <= |script| && |s.buffer| <= CAPACITY
    && s.received + s.buffer == script[..s.sent]
    && (s.closed ==> s.sent == |script|)
    && (s.finished ==> s.closed && s.buffer == [])
  }

  /** Every move uses up one of these. */
  function MovesLeft(script: seq<Chunk>, s: Stream): int {
    2 * (|script| - s.sent) + |s.buffer| + (if s.closed then 0 else 1) + (if s.finished then 0 else 1)
  }

  lemma {:induction false} PlayKeepsInv(script: seq<Chunk>, s: Stream, moves: seq<Move>, s': Stream)
    requires StreamInv(script, s) && Plays(script, s, moves, s')
    ensures StreamInv(script, s') && MovesLeft(script, s') == MovesLeft(script, s) - |moves|
    decreases |moves|
  {
    if moves != [] {
      PlayKeepsInv(script, Moved(script, s, moves[0]), moves[1..], s');
    }
  }

  /** Under every interleaving the consumer has received a prefix of the script and never
      more; the two never block each other; every run is finite; and a finished consumer
      has received the script exactly. */
  lemma ChannelDelivers(script: seq<Chunk>, moves: seq<Move>, s: Stream)
    requires Plays(script, OPENED, moves, s)
    ensures s.received <= script
    ensures s.finished ==> s.received == script
    ensures |s.buffer| <= 64
    ensures !s.finished ==> exists m :: CanMove(script, s, m)
    ensures |moves| <= 2 * |script| + 2 && (s.finished <==> |moves| == 2 * |script| + 2)
  {
    PlayKeepsInv(script, OPENED, moves, s);
    assert s.received <= s.received + s.buffer;
    if !s.finished {
      var m := if s.buffer != [] then Receive else if s.closed then Finish else if s.sent == |script| then Close else Send;
      assert CanMove(script, s, m);
    }
  }

  // ----- What the client of a stream sees -----

  datatype Event = Delta(content: string) | Stopped | Done

  function EventOf(c: Chunk): Event {
    if c.finish == "stop" then Stopped else Delta(c.content)
  }

  function Events(received: seq<Chunk>): (es: seq<Event>)
    ensures |es| == |received| + 1
  {
    seq(|received|, i requires 0 <= i < |received| => EventOf(received[i])) + [Done]
  }

  /** The text a client assembles from the deltas. */
  function Assembled(es: seq<Event>): string {
    if es == [] then "" else (if es[0].Delta? then es[0].content else "") + Assembled(es[1..])
  }

  /** The consumer loop: one event per chunk until the channel is closed, then the end mark. */
  method RelayStream(received: seq<Chunk>) returns (es: seq<Event>)
    ensures es == Events(received)
  {
    es := [];
    for i := 0 to |received|
      invariant es == Events(received)[..i]
    {
      if received[i].finish == "stop" {
        es := es + [Stopped];
      } else {
        es := es + [Delta(received[i].content)];
      }
    }
    es := es + [Done];
  }

  /** Deltas only, then one stop, then the end mark. */
  predicate WellShaped(es: seq<Event>) {
    && |es| >= 2 && es[|es| - 1] == Done && es[|es| - 2] == Stopped
    && forall i :: 0 <= i < |es| - 2 ==> es[i].Delta?
  }

  lemma {:induction false} AssembledWords(words: seq<string>, rest: seq<Event>)
    requires Assembled(rest) == ""
    ensures Assembled(WordDeltas(words) + rest) == Spaced(words)
  {
    if words == [] {
      assert WordDeltas(words) + rest == rest;
    } else {
      var es := WordDeltas(words) + rest;
      assert es[0] == Delta(words[0] + " ");
      assert es[1..] == WordDeltas(words[1..]) + rest;
      AssembledWords(words[1..], rest);
    }
  }

  function WordDeltas(words: seq<string>): (es: seq<Event>)
    ensures |es| == |words|
  {
    seq(|words|, i requires 0 <= i < |words| => Delta(words[i] + " "))
  }

  lemma NoticeSays(a: Answer)
    ensures a.QuorumMissed? ==>
              Notice(a.got, a.of, a.need)
              == "[Fusion error: quorum not met — " + Itoa(a.got) + "/" + Itoa(a.of) + " panelists answered, need " + Itoa(a.need) + "]"
  {
  }

  /** A stream agrees with the plain answer: under every interleaving, a finished stream is
      deltas, one stop and the end mark, and the assembled text has exactly the words and the
      visible characters of the synthesised text, in order, or is the quorum notice when the plain answer is the quorum error. */
  lemma StreamAgreesWithPlainAnswer(results: seq<Response>, minQuorum: int, synth: string, moves: seq<Move>, s: Stream)
    requires Plays(Script(Concluded(results, minQuorum, synth)), OPENED, moves, s) && s.finished
    ensures WellShaped(Events(s.received))
    ensures
      match Concluded(results, minQuorum, synth)
      case Text(content) =>
        && content == synth && Fields(Assembled(Events(s.received))) == Fields(synth)
        && Visible(Assembled(Events(s.received))) == Visible(synth)
      case QuorumMissed(got, of, need) =>
        && got == |Valid(results)| < minQuorum == need && of == |results|
        && Assembled(Events(s.received))
           == "[Fusion error: quorum not met — " + Itoa(got) + "/" + Itoa(of) + " panelists answered, need " + Itoa(need) + "]"
  {
    NoticeSays(Concluded(results, minQuorum, synth));
    hide Fields, Notice, Visible;
    var answer := Concluded(results, minQuorum, synth);
    ChannelDelivers(Script(answer), moves, s);
    var es := Events(s.received);
    match answer {
      case Text(content) =>
        var words := Fields(content);
        assert es == WordDeltas(words) + [Stopped, Done];
        AssembledWords(words, [Stopped, Done]);
        FieldsOfSpaced(words);
        SpacedShowsAll(content);
      case QuorumMissed(got, of, need) =>
        assert es == [Delta(Notice(got, of, need)), Stopped, Done];
        assert es[1..] == [Stopped, Done];
    }
  }

}
