/** The retrieved-context block put in front of a chat request. Strings are byte strings:
    one character stands for one byte, so lengths and cuts are in bytes.
 */
module RagContext {
  import opened TextSearch

  const OPEN := "<retrieved_context>"
  const CLOSE := "</retrieved_context>"
  const BLOCKED := "[blocked]"
  const INTRO_LINE := "Relevant context retrieved " + "from knowledge base:"
  const INTRO := INTRO_LINE + "\n\n"
  const TRUNCATED := "[... context truncated ...]"
  const MAX_CONTEXT_CHARS := 8192

  /** What "%.3f" prints: digits, a sign, a point, or NaN and Inf; never an angle bracket. */
  type ScoreText = s: string | '<' !in s witness "0.000"

  datatype Field = Text(text: string) | Other

  datatype SearchResult = SearchResult(score: ScoreText, payload: map<string, Field>)

  // ----- Sanitising -----

  predicate StartsWith(s: string, prefix: string) {
    prefix <= s
  }

  /** What the replacer writes for the front of s, and how much of s that stands for: a pattern
      that starts there is replaced, else one byte is copied. */
  function StepAt(s: string): (step: (string, nat))
    requires s != ""
    ensures 0 < step.1 <= |s|
  {
    if StartsWith(s, OPEN) then (BLOCKED, |OPEN|)
    else if StartsWith(s, CLOSE) then (BLOCKED, |CLOSE|)
    else ([s[0]], 1)
  }

  /** The two-pattern replacer, from left to right. */
  function Sanitize(s: string): string
    decreases |s|
  {
    if s == "" then "" else StepAt(s).0 + Sanitize(s[StepAt(s).1..])
  }

  predicate IsDelimiter(p: string) {
    p == OPEN || p == CLOSE
  }

  ghost predicate NoDelimiters(s: string) {
    !Contains(s, OPEN) && !Contains(s, CLOSE)
  }

  lemma DelimiterShape(p: string)
    requires IsDelimiter(p)
    ensures p != "" && p[0] == '<' && '[' !in p && '\n' !in p
  {
  }

  lemma {:induction false} SanitizedPrefixWasThere(s: string, p: string)
    requires '[' !in p && p <= Sanitize(s)
    ensures p <= s
    decreases |p|
  {
    if p != "" {
      assert p[0] == Sanitize(s)[0];
      assert p[0] != '[';
      assert Sanitize(s) == [s[0]] + Sanitize(s[1..]);
      assert Sanitize(s)[1..] == Sanitize(s[1..]);
      SanitizedPrefixWasThere(s[1..], p[1..]);
      assert p == [p[0]] + p[1..];
    }
  }

  lemma {:induction false} SanitizedHasNo(s: string, p: string, i: int)
    requires IsDelimiter(p)
    ensures !OccursAt(p, Sanitize(s), i)
    decreases |s|
  {
    DelimiterShape(p);
    if s == "" {
    } else if StartsWith(s, OPEN) || StartsWith(s, CLOSE) {
      var rest := if StartsWith(s, OPEN) then s[|OPEN|..] else s[|CLOSE|..];
      assert Sanitize(s) == BLOCKED + Sanitize(rest);
      if 0 <= i < |BLOCKED| {
        BlockedHasNoBracket();
        assert i + |p| <= |Sanitize(s)| ==> Sanitize(s)[i..i + |p|][0] == BLOCKED[i];
      } else {
        SanitizedHasNo(rest, p, i - |BLOCKED|);
        if i >= 0 {
          OccursShifted(p, BLOCKED, Sanitize(rest), i);
        }
      }
    } else if i == 0 {
      if OccursAt(p, Sanitize(s), 0) {
        SanitizedPrefixWasThere(s, p);
      }
    } else {
      SanitizedHasNo(s[1..], p, i - 1);
      if i > 0 {
        OccursShifted(p, [s[0]], Sanitize(s[1..]), i);
      }
    }
  }

  lemma BlockedHasNoBracket()
    ensures forall i :: 0 <= i < |BLOCKED| ==> BLOCKED[i] != '<'
  {
  }

  /** No sanitised text contains either delimiter, even one formed by what was cut out. */
  lemma SanitizedIsClean(s: string)
    ensures NoDelimiters(Sanitize(s))
  {
    forall i ensures !OccursAt(OPEN, Sanitize(s), i) && !OccursAt(CLOSE, Sanitize(s), i) {
      SanitizedHasNo(s, OPEN, i);
      SanitizedHasNo(s, CLOSE, i);
    }
  }

  lemma CleanStep(s: string)
    requires s != "" && NoDelimiters(s)
    ensures StepAt(s) == ([s[0]], 1) && NoDelimiters(s[1..])
  {
    assert StartsWith(s, OPEN) ==> OccursAt(OPEN, s, 0);
    assert StartsWith(s, CLOSE) ==> OccursAt(CLOSE, s, 0);
    forall i ensures !OccursAt(OPEN, s[1..], i) && !OccursAt(CLOSE, s[1..], i) {
      if i >= 0 {
        OccursShifted(OPEN, [s[0]], s[1..], i + 1);
        OccursShifted(CLOSE, [s[0]], s[1..], i + 1);
      }
      assert s == [s[0]] + s[1..];
      assert !OccursAt(OPEN, s, i + 1) && !OccursAt(CLOSE, s, i + 1);
    }
  }

  lemma {:induction false} CleanStaysPut(s: string)
    requires NoDelimiters(s)
    ensures Sanitize(s) == s
    decreases |s|
  {
    hide StepAt, NoDelimiters;
    if s != "" {
      CleanStep(s);
      CleanStaysPut(s[1..]);
    }
  }

  /** Sanitising changes exactly the texts that contain a delimiter. */
  lemma SanitizeUnchangedIffClean(s: string)
    ensures Sanitize(s) == s <==> NoDelimiters(s)
  {
    SanitizedIsClean(s);
    if NoDelimiters(s) {
      CleanStaysPut(s);
    }
  }

  // ----- Building the block -----

  const TEXT_KEYS := ["content", "text", "body", "chunk", "page_content"]

  /** The first non-empty string under the known keys, from key k on. */
  function TextFrom(payload: map<string, Field>, k: nat): string
    requires k <= |TEXT_KEYS|
    decreases |TEXT_KEYS| - k
  {
    if k == |TEXT_KEYS| then ""
    else if TEXT_KEYS[k] in payload && payload[TEXT_KEYS[k]].Text? && payload[TEXT_KEYS[k]].text != "" then
      payload[TEXT_KEYS[k]].text
    else TextFrom(payload, k + 1)
  }

  method ExtractText(payload: map<string, Field>) returns (text: string)
    ensures text == TextFrom(payload, 0)
  {
    for k := 0 to |TEXT_KEYS|
      invariant TextFrom(payload, 0) == TextFrom(payload, k)
    {
      var key := TEXT_KEYS[k];
      if key in payload {
        var v := payload[key];
        if v.Text? && v.text != "" {
          return v.text;
        }
      }
    }
    return "";
  }

  /** The entry of the i-th result; nothing when there is no text to show. */
  function Entry(i: nat, r: SearchResult): string {
    var text := Sanitize(TextFrom(r.payload, 0));
    if text == "" then ""
    else "[" + Itoa(i + 1) + "] (score " + r.score + ")\n" + text + "\n\n"
  }

  /** The entries of the first n results, in order. */
  function Entries(results: seq<SearchResult>, n: nat): string
    requires n <= |results|
  {
    if n == 0 then "" else Entries(results, n - 1) + Entry(n - 1, results[n - 1])
  }

  function Block(results: seq<SearchResult>): string {
    OPEN + "\n" + INTRO + Entries(results, |results|) + CLOSE
  }

  method FormatEntry(i: nat, r: SearchResult) returns (entry: string)
    ensures entry == Entry(i, r)
  {
    hide Sanitize, TextFrom, Itoa;
    var raw := ExtractText(r.payload);
    var text := Sanitize(raw);
    if text == "" {
      return "";
    }
    entry := "[" + Itoa(i + 1) + "] (score " + r.score + ")\n" + text + "\n\n";
  }

  method BuildContextBlock(results: seq<SearchResult>) returns (b: string)
    ensures b == Block(results)
  {
    hide Entry;
    b := OPEN + "\n";
    b := b + INTRO;
    ghost var head := b;
    var i := 0;
    while i < |results|
      invariant i <= |results| && b == head + Entries(results, i)
    {
      var entry := FormatEntry(i, results[i]);
      if entry != "" {
        b := b + entry;
      }
      i := i + 1;
    }
    b := b + CLOSE;
  }

  /** Over-long blocks are cut and closed again. */
  function Capped(block: string): string {
    if |block| > MAX_CONTEXT_CHARS then block[..MAX_CONTEXT_CHARS] + "\n" + CLOSE + "\n" + TRUNCATED
    else block
  }

  // ----- One opening and one closing delimiter -----

  lemma JoinClean(a: string, b: string)
    requires NoDelimiters(a) && NoDelimiters(b)
    ensures NoDelimiters(a + "\n" + b)
  {
    forall i ensures !OccursAt(OPEN, a + "\n" + b, i) && !OccursAt(CLOSE, a + "\n" + b, i) {
      OccursAroundChar(OPEN, a, '\n', b, i);
      OccursAroundChar(CLOSE, a, '\n', b, i);
    }
  }

  lemma NoBracketIsClean(s: string)
    requires '<' !in s
    ensures NoDelimiters(s)
  {
    NoFirstChar(OPEN, s);
    NoFirstChar(CLOSE, s);
  }

  /** Lines ended by a newline, none of which contains a delimiter. */
  ghost predicate CleanLines(s: string) {
    s == "" || (s[|s| - 1] == '\n' && NoDelimiters(s[..|s| - 1]))
  }

  lemma AppendCleanLines(a: string, b: string)
    requires CleanLines(a) && CleanLines(b)
    ensures CleanLines(a + b)
  {
    if a == "" {
      assert a + b == b;
    } else if b == "" {
      assert a + b == a;
    } else {
      JoinClean(a[..|a| - 1], b[..|b| - 1]);
      assert (a + b)[..|a + b| - 1] == a[..|a| - 1] + "\n" + b[..|b| - 1];
    }
  }

  lemma EntryIsCleanLines(i: nat, r: SearchResult)
    ensures CleanLines(Entry(i, r))
  {
    hide Sanitize, TextFrom;
    var text := Sanitize(TextFrom(r.payload, 0));
    if text != "" {
      var head := "[" + Itoa(i + 1) + "] (score " + r.score + ")";
      SanitizedIsClean(TextFrom(r.payload, 0));
      NoBracketIsClean(head);
      NoBracketIsClean("");
      JoinClean(head, text);
      JoinClean(head + "\n" + text, "");
      assert Entry(i, r)[..|Entry(i, r)| - 1] == head + "\n" + text + "\n" + "";
    }
  }

  lemma {:induction false} EntriesAreCleanLines(results: seq<SearchResult>, n: nat)
    requires n <= |results|
    ensures CleanLines(Entries(results, n))
  {
    hide Entry;
    if n > 0 {
      EntriesAreCleanLines(results, n - 1);
      EntryIsCleanLines(n - 1, results[n - 1]);
      AppendCleanLines(Entries(results, n - 1), Entry(n - 1, results[n - 1]));
    }
  }

  lemma IntroIsCleanLines()
    ensures CleanLines(INTRO)
  {
    assert '<' !in "Relevant context retrieved " && '<' !in "from knowledge base:";
    assert INTRO[..|INTRO| - 1] == INTRO_LINE + "\n";
    NoBracketIsClean(INTRO[..|INTRO| - 1]);
  }

  /** The opening delimiter stands at 0 only, the closing one at `close` only. */
  ghost predicate OneOfEach(s: string, close: int) {
    && (forall i :: OccursAt(OPEN, s, i) <==> i == 0)
    && (forall i :: OccursAt(CLOSE, s, i) <==> i == close)
  }

  lemma InsideClose(i: int)
    ensures OccursAt(CLOSE, CLOSE, i) <==> i == 0
    ensures !OccursAt(OPEN, CLOSE, i)
  {
    assert CLOSE[0] == '<' && CLOSE[1] == '/' && OPEN[1] == 'r';
    assert CLOSE[0..|OPEN|][1] == '/' && CLOSE[1..1 + |OPEN|][0] == '/';
  }

  lemma WrapCleanLines(body: string)
    requires CleanLines(body) && body != ""
    ensures OneOfEach(OPEN + "\n" + body + CLOSE, |OPEN| + 1 + |body|)
  {
    var inner := body[..|body| - 1];
    var tail := inner + "\n" + CLOSE;
    var s := OPEN + "\n" + tail;
    assert OPEN + "\n" + body + CLOSE == s;
    forall i
      ensures OccursAt(OPEN, s, i) <==> i == 0
      ensures OccursAt(CLOSE, s, i) <==> i == |OPEN| + 1 + |body|
    {
      var j := i - |OPEN| - 1;
      var k := j - |inner| - 1;
      OccursAroundChar(OPEN, OPEN, '\n', tail, i);
      OccursAroundChar(CLOSE, OPEN, '\n', tail, i);
      OccursAroundChar(OPEN, inner, '\n', CLOSE, j);
      OccursAroundChar(CLOSE, inner, '\n', CLOSE, j);
      assert !OccursAt(OPEN, inner, j) && !OccursAt(CLOSE, inner, j);
      InsideClose(k);
    }
  }

  lemma BlockHasOneOfEach(results: seq<SearchResult>)
    ensures OneOfEach(Block(results), |Block(results)| - |CLOSE|)
  {
    hide Entries, CleanLines, OneOfEach;
    var entries := Entries(results, |results|);
    IntroIsCleanLines();
    EntriesAreCleanLines(results, |results|);
    AppendCleanLines(INTRO, entries);
    WrapCleanLines(INTRO + entries);
    assert OPEN + "\n" + (INTRO + entries) + CLOSE == Block(results);
  }

  lemma CappedHasOneOfEach(block: string)
    requires |block| > MAX_CONTEXT_CHARS && OneOfEach(block, |block| - |CLOSE|)
    ensures OneOfEach(Capped(block), MAX_CONTEXT_CHARS + 1)
  {
    var cut := block[..MAX_CONTEXT_CHARS];
    var tail := CLOSE + "\n" + TRUNCATED;
    var s := cut + "\n" + tail;
    assert Capped(block) == s;
    NoBracketIsClean(TRUNCATED);
    forall i
      ensures OccursAt(OPEN, s, i) <==> i == 0
      ensures OccursAt(CLOSE, s, i) <==> i == MAX_CONTEXT_CHARS + 1
    {
      hide OccursAt;
      var j := i - |cut| - 1;
      OccursAroundChar(OPEN, cut, '\n', tail, i);
      OccursAroundChar(CLOSE, cut, '\n', tail, i);
      OccursInPrefix(OPEN, block, MAX_CONTEXT_CHARS, i);
      OccursInPrefix(CLOSE, block, MAX_CONTEXT_CHARS, i);
      OccursAroundChar(OPEN, CLOSE, '\n', TRUNCATED, j);
      OccursAroundChar(CLOSE, CLOSE, '\n', TRUNCATED, j);
      InsideClose(j);
      assert !OccursAt(OPEN, TRUNCATED, j - |CLOSE| - 1) && !OccursAt(CLOSE, TRUNCATED, j - |CLOSE| - 1);
    }
  }

  /** Where the one closing delimiter of the injected block stands. */
  function CloseAt(results: seq<SearchResult>): int {
    if |Block(results)| > MAX_CONTEXT_CHARS then MAX_CONTEXT_CHARS + 1 else |Block(results)| - |CLOSE|
  }

  /** For all search results the injected block opens once, at its start, and closes once,
      after that, wherever the cut falls; and it is never longer than the cap plus the
      fixed ending. */
  lemma InjectedBlockIsDelimitedOnce(results: seq<SearchResult>)
    ensures OneOfEach(Capped(Block(results)), CloseAt(results)) && CloseAt(results) > |OPEN|
    ensures |Capped(Block(results))| <= MAX_CONTEXT_CHARS + 1 + |CLOSE| + 1 + |TRUNCATED|
  {
    BlockHasOneOfEach(results);
    if |Block(results)| > MAX_CONTEXT_CHARS {
      CappedHasOneOfEach(Block(results));
    }
  }

  // ----- Injecting the block into a request -----

  datatype Message = Message(role: string, content: string)

  function LastUser(messages: seq<Message>): string {
    if messages == [] then ""
    else
      var last := messages[|messages| - 1];
      if last.role == "user" then last.content else LastUser(messages[..|messages| - 1])
  }

  method LastUserMessage(messages: array<Message>) returns (text: string)
    ensures text == LastUser(messages[..])
  {
    var i := messages.Length - 1;
    assert messages[..] == messages[..i + 1];
    while i >= 0
      invariant -1 <= i < messages.Length
      invariant LastUser(messages[..]) == LastUser(messages[..i + 1])
    {
      if messages[i].role == "user" {
        return messages[i].content;
      }
      assert messages[..i + 1][..i] == messages[..i];
      i := i - 1;
    }
    return "";
  }

  function WithContext(messages: seq<Message>, context: string): seq<Message> {
    if context == "" then messages
    else if messages != [] && messages[0].role == "system" then
      [Message("system", context + "\n\n" + messages[0].content)] + messages[1..]
    else [Message("system", context)] + messages
  }

  /** A leading system message is extended in place; otherwise a new list is returned and
      the old one is left alone. */
  method PrependSystemContext(messages: array<Message>, context: string) returns (out: array<Message>)
    modifies messages
    ensures out[..] == WithContext(old(messages[..]), context)
    ensures out == messages || (fresh(out) && messages[..] == old(messages[..]))
  {
    if context == "" {
      return messages;
    }
    if messages.Length > 0 && messages[0].role == "system" {
      messages[0] := messages[0].(content := context + "\n\n" + messages[0].content);
      return messages;
    }
    out := new Message[messages.Length + 1](i requires 0 <= i <= messages.Length reads messages =>
      if i == 0 then Message("system", context) else messages[i - 1]);
    assert out[1..] == messages[..];
  }

  /** A system message already there is kept whole behind the context and everything else stays
      as it was; without one the context comes first and the old list follows. */
  lemma ContextAdded(messages: seq<Message>, context: string)
    requires context != ""
    ensures
      var after := WithContext(messages, context);
      if messages != [] && messages[0].role == "system" then
        && |after| == |messages| && after[1..] == messages[1..]
        && after[0] == Message("system", context + "\n\n" + messages[0].content)
      else
        |after| == |messages| + 1 && after[1..] == messages && after[0] == Message("system", context)
  {
  }

  lemma BlockNotEmpty(results: seq<SearchResult>)
    ensures Capped(Block(results)) != ""
  {
    assert |Block(results)| >= |OPEN|;
  }

  /** The text searched for is that of the last user message, if there is one. */
  lemma {:induction false} LastUserIsLast(messages: seq<Message>, i: nat)
    ensures i < |messages| && messages[i].role == "user" && (forall j :: i < j < |messages| ==> messages[j].role != "user") ==>
              LastUser(messages) == messages[i].content
    ensures (forall j :: 0 <= j < |messages| ==> messages[j].role != "user") ==> LastUser(messages) == ""
  {
    if messages != [] {
      LastUserIsLast(messages[..|messages| - 1], i);
    }
  }

  datatype Outcome = Unchanged | Rewritten(messages: seq<Message>)

  /** The steps that need the network are given by what they return. */
  method InjectContext(enabled: bool, parsed: bool, messages: array<Message>, embedded: bool,
                       found: seq<SearchResult>, searched: bool) returns (r: Outcome)
    modifies messages
    ensures
      var on := enabled && parsed && LastUser(old(messages[..])) != "" && embedded && searched && found != [];
      r == if on then Rewritten(WithContext(old(messages[..]), Capped(Block(found)))) else Unchanged
    ensures r == Unchanged ==> messages[..] == old(messages[..])
    ensures r.Rewritten? ==>
              var before, block := old(messages[..]), Capped(Block(found));
              if before != [] && before[0].role == "system" then
                && |r.messages| == |before| && r.messages[1..] == before[1..]
                && r.messages[0] == Message("system", block + "\n\n" + before[0].content)
              else
                |r.messages| == |before| + 1 && r.messages[1..] == before && r.messages[0] == Message("system", block)
  {
    ContextAdded(messages[..], Capped(Block(found)));
    BlockNotEmpty(found);
    if !enabled || !parsed {
      return Unchanged;
    }
    var userText := LastUserMessage(messages);
    if userText == "" || !embedded || !searched || |found| == 0 {
      return Unchanged;
    }
    var contextBlock := BuildContextBlock(found);
    if |contextBlock| > MAX_CONTEXT_CHARS {
      contextBlock := contextBlock[..MAX_CONTEXT_CHARS] + "\n" + CLOSE + "\n" + TRUNCATED;
    }
    var out := PrependSystemContext(messages, contextBlock);
    r := Rewritten(out[..]);
  }

  lemma {:induction false} LastUserBehind(first: Message, rest: seq<Message>)
    requires first.role != "user"
    ensures LastUser([first] + rest) == LastUser(rest)
  {
    if rest == [] {
      assert ([first] + rest)[..0] == [];
    } else {
      LastUserBehind(first, rest[..|rest| - 1]);
      assert ([first] + rest)[..|rest|] == [first] + rest[..|rest| - 1];
    }
  }

  /** Injection never touches what the user asked. */
  lemma LastUserSurvives(messages: seq<Message>, context: string)
    ensures LastUser(WithContext(messages, context)) == LastUser(messages)
  {
    if context != "" {
      if messages != [] && messages[0].role == "system" {
        assert messages == [messages[0]] + messages[1..];
        LastUserBehind(messages[0], messages[1..]);
        LastUserBehind(WithContext(messages, context)[0], messages[1..]);
      } else {
        LastUserBehind(Message("system", context), messages);
      }
    }
  }

  /** Two newlines keep what stands in front of them apart from what stands behind. */
  lemma OccursAroundGap(p: string, a: string, b: string, i: int)
    requires IsDelimiter(p)
    ensures OccursAt(p, a + "\n\n" + b, i) <==> OccursAt(p, a, i) || OccursAt(p, b, i - |a| - 2)
  {
    assert a + "\n\n" + b == a + "\n" + ("\n" + b) && "\n" + b == "" + "\n" + b;
    OccursAroundChar(p, a, '\n', "\n" + b, i);
    OccursAroundChar(p, "", '\n', b, i - |a| - 1);
  }

  lemma DelimitedBeforeText(results: seq<SearchResult>, existing: string)
    ensures OneOfEach(Capped(Block(results)) + "\n\n" + existing, CloseAt(results)) <==> NoDelimiters(existing)
  {
    hide Capped, Block, CloseAt;
    var block, close := Capped(Block(results)), CloseAt(results);
    InjectedBlockIsDelimitedOnce(results);
    var s := block + "\n\n" + existing;
    var shift := |block| + 2;
    forall i
      ensures OccursAt(OPEN, s, i) <==> i == 0 || OccursAt(OPEN, existing, i - shift)
      ensures OccursAt(CLOSE, s, i) <==> i == close || OccursAt(CLOSE, existing, i - shift)
    {
      OccursAroundGap(OPEN, block, existing, i);
      OccursAroundGap(CLOSE, block, existing, i);
    }
    if Contains(existing, OPEN) {
      var i :| OccursAt(OPEN, existing, i);
      assert OccursAt(OPEN, s, i + shift);
    } else if Contains(existing, CLOSE) {
      var i :| OccursAt(CLOSE, existing, i);
      assert OccursAt(CLOSE, block, close) && OccursAt(CLOSE, s, i + shift);
    }
  }

  /** The system message of the rewritten request keeps one delimiter of each kind exactly when
      the system message already there, which is not sanitised, had none; without one it always
      does. */
  lemma SystemMessageDelimitedIffOldOneClean(results: seq<SearchResult>, messages: seq<Message>)
    ensures
      var content := WithContext(messages, Capped(Block(results)))[0].content;
      OneOfEach(content, CloseAt(results)) <==>
      (messages != [] && messages[0].role == "system" ==> NoDelimiters(messages[0].content))
  {
    hide Capped, Block, CloseAt, NoDelimiters, OneOfEach;
    BlockNotEmpty(results);
    ContextAdded(messages, Capped(Block(results)));
    if messages != [] && messages[0].role == "system" {
      DelimitedBeforeText(results, messages[0].content);
    } else {
      InjectedBlockIsDelimitedOnce(results);
    }
  }

  // ----- What the block says -----

  lemma SanitizeFront(p: string, b: string)
    requires IsDelimiter(p)
    ensures Sanitize(p + b) == "[blocked]" + Sanitize(b)
  {
    var s := p + b;
    assert s[|p|..] == b;
    assert p == CLOSE ==> s[1] == '/';
  }

  lemma SanitizeStep(s: string)
    ensures Sanitize(s) == if s == "" then "" else StepAt(s).0 + Sanitize(s[StepAt(s).1..])
  {
    hide StepAt;
  }

  /** A delimiter, wherever it stands, is replaced by "[blocked]", and the texts on either side
      are sanitised by themselves. */
  lemma {:induction false} SanitizeAround(a: string, p: string, b: string)
    requires p == "<retrieved_context>" || p == "</retrieved_context>"
    ensures Sanitize(a + p + b) == Sanitize(a) + "[blocked]" + Sanitize(b)
    decreases |a|
  {
    hide Sanitize, StepAt;
    var s := a + p + b;
    if a == "" {
      assert s == p + b;
      SanitizeStep("");
      SanitizeFront(p, b);
    } else {
      SameStep(a, p, b);
      SanitizeStep(a);
      SanitizeStep(s);
      var n := StepAt(a).1;
      assert s[n..] == a[n..] + p + b;
      SanitizeAround(a[n..], p, b);
    }
  }

  lemma SameStep(a: string, p: string, b: string)
    requires a != "" && IsDelimiter(p)
    ensures StepAt(a + p + b) == StepAt(a)
  {
    hide StartsWith;
    NoDelimiterAcross(a, OPEN, p, b);
    NoDelimiterAcross(a, CLOSE, p, b);
  }

  lemma NoDelimiterAcross(a: string, q: string, p: string, b: string)
    requires a != "" && IsDelimiter(q) && IsDelimiter(p)
    ensures StartsWith(a + p + b, q) <==> StartsWith(a, q)
  {
    var s := a + p + b;
    assert s[|a|] == p[0] == '<';
    assert forall i :: 0 < i < |q| ==> q[i] != '<';
    assert |a| < |q| ==> q[|a|] != '<';
  }

  predicate HasText(payload: map<string, Field>, key: string) {
    key in payload && payload[key].Text? && payload[key].text != ""
  }

  /** The shown text is the first non-empty one under five keys, in this order. */
  lemma FirstTextWins(payload: map<string, Field>)
    ensures
      var text := TextFrom(payload, 0);
      && (HasText(payload, "content") ==> text == payload["content"].text)
      && (!HasText(payload, "content") ==>
      && (HasText(payload, "text") ==> text == payload["text"].text)
      && (!HasText(payload, "text") ==>
      && (HasText(payload, "body") ==> text == payload["body"].text)
      && (!HasText(payload, "body") ==>
      && (HasText(payload, "chunk") ==> text == payload["chunk"].text)
      && (!HasText(payload, "chunk") ==>
      && (HasText(payload, "page_content") ==> text == payload["page_content"].text)
      && (!HasText(payload, "page_content") ==> text == "")))))
  {
    assert TextFrom(payload, 5) == "";
    assert TextFrom(payload, 4) == if HasText(payload, "page_content") then payload["page_content"].text else "";
    assert TextFrom(payload, 3) == if HasText(payload, "chunk") then payload["chunk"].text else TextFrom(payload, 4);
    assert TextFrom(payload, 2) == if HasText(payload, "body") then payload["body"].text else TextFrom(payload, 3);
    assert TextFrom(payload, 1) == if HasText(payload, "text") then payload["text"].text else TextFrom(payload, 2);
  }

  /** One more result puts its numbered, scored and sanitised text in front of the closing
      delimiter, or nothing if it has no text. */
  lemma BlockGrows(results: seq<SearchResult>, r: SearchResult)
    ensures
      var text := Sanitize(TextFrom(r.payload, 0));
      var entry := if text == "" then "" else "[" + Itoa(|results| + 1) + "] (score " + r.score + ")\n" + text + "\n\n";
      && |Block(results)| >= |CLOSE|
      && Block(results + [r]) == Block(results)[..|Block(results)| - |CLOSE|] + entry + "</retrieved_context>"
  {
    hide Sanitize, TextFrom, Itoa, Entries, Block;
    BlockEnds(results);
    BlockEnds(results + [r]);
    EntriesGrow(results, r);
    AddBeforeEnd(OPEN + "\n" + INTRO, Entries(results, |results|), Entry(|results|, r), CLOSE);
  }

  lemma AddBeforeEnd(a: string, b: string, c: string, end: string)
    ensures (a + b + end)[..|a + b + end| - |end|] + c + end == a + (b + c) + end
  {
    assert (a + b + end)[..|a + b + end| - |end|] == a + b;
  }

  /** Without any text the block is just its opening lines and its closing delimiter. */
  lemma EmptyBlock()
    ensures Block([]) == "<retrieved_context>" + "\n" + (("Relevant context retrieved " + "from knowledge base:") + "\n\n") + "</retrieved_context>"
  {
    BlockEnds([]);
    assert Entries([], 0) == "";
    var front := OPEN + "\n" + INTRO;
    assert front + "" == front;
  }

  lemma BlockEnds(results: seq<SearchResult>)
    ensures Block(results) == OPEN + "\n" + INTRO + Entries(results, |results|) + CLOSE
  {
  }

  lemma EntriesGrow(results: seq<SearchResult>, r: SearchResult)
    ensures Entries(results + [r], |results| + 1) == Entries(results, |results|) + Entry(|results|, r)
  {
    hide Entry;
    SameEntries(results, r, |results|);
  }

  lemma {:induction false} SameEntries(results: seq<SearchResult>, r: SearchResult, n: nat)
    requires n <= |results|
    ensures Entries(results + [r], n) == Entries(results, n)
  {
    hide Entry;
    if n > 0 {
      SameEntries(results, r, n - 1);
    }
  }

  /** Up to 8192 bytes a block is injected as it is; a longer one is cut there. */
  lemma CappedAt8192(block: string)
    ensures |block| <= 8192 ==> Capped(block) == block
    ensures |block| > 8192 ==>
              Capped(block) == block[..8192] + "\n" + "</retrieved_context>" + "\n" + "[... context truncated ...]"
  {
  }
}
