/** Filling the judge and synthesiser prompts by nested first-occurrence replacement, and
    the panel's answers that go into them.
 */
module Prompts {
  import opened TextSearch
  import opened Whitespace
  import opened Rendering
  import opened Transforms

  const QUESTION := "{question}"
  const RESPONSES := "{responses}"
  const ANALYSIS := "{analysis}"

  predicate IsSlot(p: string) {
    p == QUESTION || p == RESPONSES || p == ANALYSIS
  }

  // ----- The panel's answers -----

  datatype Response = Response(model: string, content: string, error: string)

  predicate IsValid(r: Response) {
    r.error == "" && r.content != ""
  }

  function Valid(rs: seq<Response>): (v: seq<Response>)
    ensures forall r :: r in v ==> r in rs && IsValid(r)
  {
    if rs == [] then []
    else
      var last := rs[|rs| - 1];
      Valid(rs[..|rs| - 1]) + (if IsValid(last) then [last] else [])
  }

  method FilterValid(rs: seq<Response>) returns (valid: seq<Response>)
    ensures valid == Valid(rs)
  {
    valid := [];
    for i := 0 to |rs|
      invariant valid == Valid(rs[..i])
    {
      assert rs[..i + 1][..i] == rs[..i];
      if rs[i].error == "" && rs[i].content != "" {
        valid := valid + [rs[i]];
      }
    }
    assert rs[..|rs|] == rs;
  }

  const MAX_PANELIST_CHARS := 12000

  function Section(r: Response): string {
    if r.error != "" || r.content == "" then
      "### " + r.model + "\n[NO RESPONSE — error: " + r.error + "]"
    else
      "### " + r.model + "\n"
      + (if |r.content| > MAX_PANELIST_CHARS then r.content[..MAX_PANELIST_CHARS] + "\n[...truncated...]" else r.content)
  }

  function Sections(rs: seq<Response>): (parts: seq<string>)
    ensures |parts| == |rs|
  {
    seq(|rs|, i requires 0 <= i < |rs| => Section(rs[i]))
  }

  const RULE := "\n\n---\n\n"

  function Formatted(rs: seq<Response>): string {
    Join(Sections(rs), RULE)
  }

  method FormatResponses(rs: seq<Response>) returns (text: string)
    ensures text == Formatted(rs)
  {
    var parts: seq<string> := [];
    for i := 0 to |rs|
      invariant parts == Sections(rs)[..i]
    {
      var r := rs[i];
      var part: string;
      if r.error != "" || r.content == "" {
        part := "### " + r.model + "\n[NO RESPONSE — error: " + r.error + "]";
      } else {
        var content := r.content;
        if |content| > MAX_PANELIST_CHARS {
          content := content[..MAX_PANELIST_CHARS] + "\n[...truncated...]";
        }
        part := "### " + r.model + "\n" + content;
      }
      assert part == Section(r);
      parts := parts + [part];
    }
    assert Sections(rs)[..|rs|] == Sections(rs);
    text := Join(parts, RULE);
  }

  lemma {:induction false} JoinStarts(parts: seq<string>, separator: string)
    requires parts != [] && parts[0] != ""
    ensures Join(parts, separator) != "" && Join(parts, separator)[0] == parts[0][0]
  {
    if |parts| > 1 {
      JoinStarts(parts[..|parts| - 1], separator);
    }
  }

  /** The formatted answers are empty exactly for an empty panel, and else start with '#',
      never with a brace. */
  lemma FormattedStarts(rs: seq<Response>)
    ensures Formatted(rs) == "" <==> rs == []
    ensures rs != [] ==> Formatted(rs)[0] == '#'
  {
    if rs != [] {
      assert Section(rs[0])[0] == '#';
      JoinStarts(Sections(rs), RULE);
    }
  }

  /** One more reply is kept exactly when it has some content and no error. */
  lemma ValidGrows(rs: seq<Response>, r: Response)
    ensures Valid([]) == []
    ensures Valid(rs + [r]) == Valid(rs) + (if r.error == "" && r.content != "" then [r] else [])
  {
    assert (rs + [r])[..|rs|] == rs;
  }

  /** One more reply follows behind a rule, under its model's name: its first 12000 characters with
      a mark if there are more, or a notice of its error. */
  lemma FormattedGrows(rs: seq<Response>, r: Response)
    ensures Formatted([]) == ""
    ensures
      var said :=
        if r.error != "" || r.content == "" then "[NO RESPONSE — error: " + r.error + "]"
        else if |r.content| > 12000 then r.content[..12000] + "\n[...truncated...]"
        else r.content;
      Formatted(rs + [r]) == (if rs == [] then "" else Formatted(rs) + "\n\n---\n\n") + ("### " + r.model + "\n" + said)
  {
    SectionSays(r);
    hide Section, Join;
    assert Sections(rs + [r]) == Sections(rs) + [Section(r)];
    JoinGrows(Sections(rs), Section(r), RULE);
    assert "" + Section(r) == Section(r);
  }

  lemma SectionSays(r: Response)
    ensures
      var said :=
        if r.error != "" || r.content == "" then "[NO RESPONSE — error: " + r.error + "]"
        else if |r.content| > 12000 then r.content[..12000] + "\n[...truncated...]"
        else r.content;
      Section(r) == "### " + r.model + "\n" + said
  {
    var notice := "[NO RESPONSE — error: " + r.error + "]";
    assert "### " + r.model + "\n[NO RESPONSE — error: " + r.error + "]" == "### " + r.model + "\n" + notice;
  }

  // ----- First occurrences around an inserted text -----

  /** Fixed prompt text that ends a line and has no opening brace. */
  predicate LineText(s: string) {
    s != "" && s[|s| - 1] == '\n' && '{' !in s
  }

  /** Fixed prompt text between two slots: it also starts a line. */
  predicate Between(s: string) {
    LineText(s) && s[0] == '\n'
  }

  lemma NoSlotWithoutBrace(p: string, s: string)
    requires IsSlot(p) && '{' !in s
    ensures !Contains(s, p)
  {
    NoFirstChar(p, s);
  }

  lemma SlotAfterLine(p: string, line: string, rest: string, i: int)
    requires IsSlot(p) && LineText(line)
    ensures OccursAt(p, line + rest, i) <==> OccursAt(p, rest, i - |line|)
  {
    var x := line[..|line| - 1];
    assert line + rest == x + "\n" + rest;
    OccursAroundChar(p, x, '\n', rest, i);
    NoSlotWithoutBrace(p, x);
    assert !OccursAt(p, x, i);
  }

  lemma SlotAfterInsert(p: string, q: string, mid: string, rest: string, i: int)
    requires IsSlot(p) && Between(mid)
    ensures OccursAt(p, q + mid + rest, i) <==> OccursAt(p, q, i) || OccursAt(p, rest, i - |q| - |mid|)
  {
    var y := mid[1..];
    assert q + mid + rest == q + "\n" + (y + rest);
    OccursAroundChar(p, q, '\n', y + rest, i);
    if y == "" {
      assert y + rest == rest;
    } else {
      assert '{' !in y;
      SlotAfterLine(p, y, rest, i - |q| - 1);
    }
  }

  /** Around fixed text, an inserted text and more fixed text, a slot occurs only in the
      inserted text or behind. */
  lemma SlotInPrompt(p: string, head: string, q: string, mid: string, rest: string, i: int)
    requires IsSlot(p) && LineText(head) && Between(mid)
    ensures OccursAt(p, head + q + mid + rest, i) <==>
            OccursAt(p, q, i - |head|) || OccursAt(p, rest, i - |head| - |q| - |mid|)
  {
    assert head + q + mid + rest == head + (q + mid + rest);
    SlotAfterLine(p, head, q + mid + rest, i);
    SlotAfterInsert(p, q, mid, rest, i - |head|);
  }

  /** Replacing the first slot of `x + p + tail` fills that slot exactly when x has none. */
  lemma ReplaceAtSlot(x: string, p: string, tail: string, text: string)
    requires forall i :: 0 <= i < |x| ==> !OccursAt(p, x + p + tail, i)
    ensures ReplaceFirst(x + p + tail, p, text) == x + text + tail
  {
    var s := x + p + tail;
    assert s[|x|..|x| + |p|] == p;
    IndexIs(s, p, |x|);
    assert s[..|x|] == x && s[|x| + |p|..] == tail;
  }

  /** An earlier slot takes the text instead, and the results differ at that place. */
  lemma ReplaceElsewhere(x: string, p: string, tail: string, text: string, i: int)
    requires IsSlot(p) && 0 <= i && i + |p| <= |x| && OccursAt(p, x + p + tail, i)
    requires |text| >= 1 && (text[0] != p[0] || (|text| >= 2 && text[1] != p[1]))
    ensures ReplaceFirst(x + p + tail, p, text) != x + text + tail
  {
    var s, target := x + p + tail, x + text + tail;
    var j := Index(s, p);
    assert 0 <= j <= i;
    var done := ReplaceFirst(s, p, text);
    assert s[j..j + |p|] == p;
    assert done[j] == text[0] && target[j] == x[j] == s[j..j + |p|][0];
    if text[0] == p[0] {
      assert done[j + 1] == text[1] && target[j + 1] == x[j + 1] == s[j..j + |p|][1];
    }
  }

  lemma BetweenEnds(a: string, mid: string)
    requires Between(mid)
    ensures a + mid != "" && (a + mid)[|a + mid| - 1] == '\n'
  {
  }

  /** Replacing an earlier slot by nothing leaves the later one standing behind a newline. */
  lemma VanishedSlot(x: string, p: string, tail: string, i: int) returns (y: string)
    requires IsSlot(p) && 0 <= i && i + |p| < |x| && OccursAt(p, x + p + tail, i)
    requires x[|x| - 1] == '\n'
    ensures ReplaceFirst(x + p + tail, p, "") == y + p + tail != x + "" + tail
    ensures |y| + |p| == |x| && y != "" && y[|y| - 1] == '\n'
  {
    var s := x + p + tail;
    var j := Index(s, p);
    assert 0 <= j <= i;
    y := x[..j] + x[j + |p|..];
    VanishedShape(x, p, tail, j);
    EndsApart(x, y, p, tail);
  }

  lemma VanishedShape(x: string, p: string, tail: string, j: int)
    requires Index(x + p + tail, p) == j && 0 <= j && j + |p| < |x|
    ensures ReplaceFirst(x + p + tail, p, "") == x[..j] + x[j + |p|..] + p + tail
  {
    var s := x + p + tail;
    assert s[..j] == x[..j] && s[j + |p|..] == x[j + |p|..] + p + tail;
    assert s[..j] + "" + s[j + |p|..] == x[..j] + x[j + |p|..] + p + tail;
  }

  lemma EndsApart(x: string, y: string, p: string, tail: string)
    requires IsSlot(p) && |y| + |p| == |x| && x[|x| - 1] == '\n'
    ensures y + p + tail != x + "" + tail
  {
    assert p[|p| - 1] == '}';
    assert (y + p + tail)[|x| - 1] == p[|p| - 1];
    assert (x + "" + tail)[|x| - 1] == x[|x| - 1];
  }

  // ----- The judge prompt -----

  /** The panel's answers as text: nothing for an empty panel, else a heading. */
  predicate AnswersText(s: string) {
    s == "" || s[0] == '#'
  }

  /** The judge prompt, with whatever follows its last slot. */
  function JudgePrompt(head: string, mid: string, tail: string): string {
    head + QUESTION + mid + RESPONSES + tail
  }

  function FillJudge(prompt: string, question: string, responses: string): string {
    ReplaceFirst(ReplaceFirst(prompt, QUESTION, question), RESPONSES, responses)
  }

  lemma QuestionGoesIn(head: string, rest: string, question: string)
    requires LineText(head)
    ensures ReplaceFirst(head + QUESTION + rest, QUESTION, question) == head + question + rest
  {
    forall i | 0 <= i < |head| ensures !OccursAt(QUESTION, head + QUESTION + rest, i) {
      assert head + QUESTION + rest == head + (QUESTION + rest);
      SlotAfterLine(QUESTION, head, QUESTION + rest, i);
    }
    ReplaceAtSlot(head, QUESTION, rest, question);
  }

  lemma SlotBehindQuestion(p: string, head: string, q: string, mid: string, tail: string)
    requires IsSlot(p) && LineText(head) && Between(mid) && !Contains(q, p)
    ensures forall i :: 0 <= i < |head + q + mid| ==> !OccursAt(p, head + q + mid + p + tail, i)
  {
    var s := head + q + mid + p + tail;
    assert s == head + q + mid + (p + tail);
    forall i | 0 <= i < |head + q + mid| ensures !OccursAt(p, s, i) {
      SlotInPrompt(p, head, q, mid, p + tail, i);
      assert !OccursAt(p, q, i - |head|);
    }
  }

  lemma SlotInsideQuestion(p: string, head: string, q: string, mid: string, tail: string) returns (i: int)
    requires IsSlot(p) && LineText(head) && Between(mid) && Contains(q, p)
    ensures |head| <= i && i + |p| <= |head + q| && OccursAt(p, head + q + mid + p + tail, i)
  {
    var s := head + q + mid + p + tail;
    assert s == head + q + mid + (p + tail);
    var k :| OccursAt(p, q, k);
    i := k + |head|;
    SlotInPrompt(p, head, q, mid, p + tail, i);
  }

  /** Question and answers each go into their own slot exactly when the question does not
      contain the answers' placeholder. */
  lemma JudgeSlotsExactly(head: string, mid: string, tail: string, question: string, responses: string)
    requires LineText(head) && Between(mid) && AnswersText(responses)
    ensures FillJudge(JudgePrompt(head, mid, tail), question, responses) == head + question + mid + responses + tail
            <==> !Contains(question, RESPONSES)
  {
    hide ReplaceFirst, LineText, Between, Contains;
    var x := head + question + mid;
    assert JudgePrompt(head, mid, tail) == head + QUESTION + (mid + RESPONSES + tail);
    QuestionGoesIn(head, mid + RESPONSES + tail, question);
    assert head + question + (mid + RESPONSES + tail) == x + RESPONSES + tail;
    if !Contains(question, RESPONSES) {
      SlotBehindQuestion(RESPONSES, head, question, mid, tail);
      ReplaceAtSlot(x, RESPONSES, tail, responses);
    } else {
      var i := SlotInsideQuestion(RESPONSES, head, question, mid, tail);
      if responses == "" {
        BetweenEnds(head + question, mid);
        var y := VanishedSlot(x, RESPONSES, tail, i);
      } else {
        ReplaceElsewhere(x, RESPONSES, tail, responses, i);
      }
    }
  }

  // ----- The synthesiser prompt -----

  function SynthPrompt(head: string, mid: string, mid2: string, tail: string): string {
    head + QUESTION + mid + RESPONSES + mid2 + ANALYSIS + tail
  }

  function FillSynth(prompt: string, question: string, responses: string, analysis: string): string {
    ReplaceFirst(FillJudge(prompt, question, responses), ANALYSIS, analysis)
  }

  /** What stands for the analysis when there is none. */
  const NO_ANALYSIS := ("Judge analysis " + "unavailable — ") + ("synthesize directly " + "from responses.")

  /** The judge's analysis as text: an object printed with indentation, or the fixed notice. */
  predicate AnalysisText(a: string) {
    a == NO_ANALYSIS || a == "{}" || (|a| >= 4 && a[..2] == "{\n" && a[|a| - 2..] == "\n}")
  }

  lemma AnalysisShape(a: string)
    requires AnalysisText(a)
    ensures |a| >= 2 && a[1] != 'a' && !(a[|a| - 2] == 's' && a[|a| - 1] == '}')
  {
    if a == NO_ANALYSIS {
      assert a[|a| - 1] == '.';
    } else if a != "{}" {
      assert a[..2][1] == '\n' && a[|a| - 2..][0] == '\n';
    }
  }

  predicate SynthParts(head: string, mid: string, mid2: string, responses: string, analysis: string) {
    LineText(head) && Between(mid) && Between(mid2) && AnswersText(responses) && AnalysisText(analysis)
  }

  /** Nothing inserted contains a placeholder that is filled after it. */
  ghost predicate SlotsSafe(question: string, responses: string) {
    !Contains(question, RESPONSES) && !Contains(question, ANALYSIS) && !Contains(responses, ANALYSIS)
  }

  lemma AnalysisSlotFree(head: string, q: string, mid: string, r: string, mid2: string, tail: string)
    requires LineText(head) && Between(mid) && Between(mid2)
    requires !Contains(q, ANALYSIS) && !Contains(r, ANALYSIS)
    ensures forall i :: 0 <= i < |head + q + mid + r + mid2| ==>
              !OccursAt(ANALYSIS, head + q + mid + r + mid2 + ANALYSIS + tail, i)
  {
    var x := head + q + mid + r + mid2;
    var s := x + ANALYSIS + tail;
    var rest := r + mid2 + (ANALYSIS + tail);
    assert s == head + q + mid + rest;
    forall i | 0 <= i < |x| ensures !OccursAt(ANALYSIS, s, i) {
      SlotInPrompt(ANALYSIS, head, q, mid, rest, i);
      SlotAfterInsert(ANALYSIS, r, mid2, ANALYSIS + tail, i - |head| - |q| - |mid|);
      assert !OccursAt(ANALYSIS, q, i - |head|) && !OccursAt(ANALYSIS, r, i - |head| - |q| - |mid|);
    }
  }

  lemma AnalysisSlotTaken(head: string, q: string, mid: string, r: string, mid2: string, tail: string) returns (i: int)
    requires LineText(head) && Between(mid) && Between(mid2)
    requires Contains(q, ANALYSIS) || Contains(r, ANALYSIS)
    ensures 0 <= i && i + |ANALYSIS| <= |head + q + mid + r|
    ensures OccursAt(ANALYSIS, head + q + mid + r + mid2 + ANALYSIS + tail, i)
  {
    var rest := r + mid2 + (ANALYSIS + tail);
    assert head + q + mid + r + mid2 + ANALYSIS + tail == head + q + mid + rest;
    if Contains(q, ANALYSIS) {
      var k :| OccursAt(ANALYSIS, q, k);
      i := k + |head|;
    } else {
      var k :| OccursAt(ANALYSIS, r, k);
      i := k + |head| + |q| + |mid|;
      SlotAfterInsert(ANALYSIS, r, mid2, ANALYSIS + tail, k);
    }
    SlotInPrompt(ANALYSIS, head, q, mid, rest, i);
  }

  /** A question that contains the answers' placeholder takes the answers in: they stand at
      some place j inside the question, where the question itself has a brace. */
  lemma StolenSlot(head: string, mid: string, rest: string, question: string, responses: string) returns (j: int)
    requires LineText(head) && Between(mid) && Contains(question, RESPONSES) && responses != "" && responses[0] == '#'
    ensures
      var t := FillJudge(JudgePrompt(head, mid, rest), question, responses);
      && 0 <= j < |t| && j < |head + question|
      && t[j] == '#' && (head + question)[j] == '{' && t[..j] == (head + question)[..j]
  {
    hide ReplaceFirst, LineText, Between, Contains;
    var x := head + question + mid;
    var s := x + RESPONSES + rest;
    assert JudgePrompt(head, mid, rest) == head + QUESTION + (mid + RESPONSES + rest);
    QuestionGoesIn(head, mid + RESPONSES + rest, question);
    assert head + question + (mid + RESPONSES + rest) == s;
    var i := SlotInsideQuestion(RESPONSES, head, question, mid, rest);
    j := Index(s, RESPONSES);
    StolenShape(s, responses);
    assert s[j..j + |RESPONSES|][0] == s[j];
    assert s[..j] == (head + question)[..j];
  }

  /** A question that steals the answers' slot spoils the result whatever the last
      replacement does. */
  lemma StolenSlotShows(head: string, mid: string, mid2: string, tail: string, question: string, responses: string, analysis: string)
    requires SynthParts(head, mid, mid2, responses, analysis) && Contains(question, RESPONSES)
    ensures FillSynth(SynthPrompt(head, mid, mid2, tail), question, responses, analysis)
            != head + question + mid + responses + mid2 + analysis + tail
  {
    hide ReplaceFirst, FillJudge, LineText, Between, Contains, AnalysisText;
    var rest := mid2 + ANALYSIS + tail;
    assert SynthPrompt(head, mid, mid2, tail) == JudgePrompt(head, mid, rest);
    if responses == "" {
      AnswerlessSlotShows(head, mid, mid2, tail, question, analysis);
    } else {
      var j := StolenSlot(head, mid, rest, question, responses);
      var t := FillJudge(JudgePrompt(head, mid, rest), question, responses);
      var more := mid + responses + mid2 + analysis + tail;
      var target := head + question + more;
      assert target == head + question + mid + responses + mid2 + analysis + tail;
      assert target[j] == (head + question)[j] && target[..j] == (head + question)[..j];
      forall k | 0 <= k < j ensures t[k] == target[k] {
        assert t[..j][k] == target[..j][k];
      }
      EarlyAnalysis(t, analysis, target, j);
    }
  }

  /** The same for an empty panel: the answers' placeholder is left standing. */
  lemma AnswerlessSlotShows(head: string, mid: string, mid2: string, tail: string, question: string, analysis: string)
    requires LineText(head) && Between(mid) && AnalysisText(analysis) && Contains(question, RESPONSES)
    ensures
      var rest := mid2 + ANALYSIS + tail;
      ReplaceFirst(FillJudge(JudgePrompt(head, mid, rest), question, ""), ANALYSIS, analysis)
      != head + question + mid + "" + mid2 + analysis + tail
  {
    hide ReplaceFirst, LineText, Between, Contains, AnalysisText;
    var x := head + question + mid;
    var rest := mid2 + ANALYSIS + tail;
    assert JudgePrompt(head, mid, rest) == head + QUESTION + (mid + RESPONSES + rest);
    QuestionGoesIn(head, mid + RESPONSES + rest, question);
    assert head + question + (mid + RESPONSES + rest) == x + RESPONSES + rest;
    var i := SlotInsideQuestion(RESPONSES, head, question, mid, rest);
    BetweenEnds(head + question, mid);
    var y := VanishedSlot(x, RESPONSES, rest, i);
    assert y + RESPONSES + rest == y + RESPONSES + mid2 + ANALYSIS + tail;
    assert head + question + mid + "" + mid2 + analysis + tail == x + mid2 + analysis + tail;
    LeftoverShows(x, y, mid2, tail, analysis);
  }

  /** Either the last slot is filled, and the leftover placeholder shows, or it is not, and it
      shows itself. */
  lemma LeftoverShows(x: string, y: string, mid2: string, tail: string, analysis: string)
    requires AnalysisText(analysis) && |y| + |RESPONSES| == |x| && x[|x| - 1] == '\n'
    ensures ReplaceFirst(y + RESPONSES + mid2 + ANALYSIS + tail, ANALYSIS, analysis) != x + mid2 + analysis + tail
  {
    AnalysisShape(analysis);
    hide AnalysisText;
    var p, n := |x| + |mid2|, |ANALYSIS|;
    var t, target := y + RESPONSES + mid2 + ANALYSIS + tail, x + mid2 + analysis + tail;
    SlotStandsAt(y + RESPONSES + mid2, tail);
    assert |y + RESPONSES + mid2| == p;
    var k := Index(t, ANALYSIS);
    assert 0 <= k <= p;
    var done := ReplaceFirst(t, ANALYSIS, analysis);
    assert done == t[..k] + analysis + t[k + n..];
    if k == p {
      assert done[|x| - 1] == RESPONSES[|RESPONSES| - 1] == '}';
    } else {
      NoOverlap(t, k, p);
      SlotLeftShows(t, k, p, tail, x + mid2, analysis);
    }
  }

  /** A slot replaced before the last one leaves the last one standing in front of the tail. */
  lemma SlotLeftShows(t: string, k: int, p: int, tail: string, front: string, analysis: string)
    requires 0 <= k && k + |ANALYSIS| <= p == |front| && |t| == p + |ANALYSIS| + |tail|
    requires OccursAt(ANALYSIS, t, p)
    requires |analysis| >= 2 && !(analysis[|analysis| - 2] == 's' && analysis[|analysis| - 1] == '}')
    ensures t[..k] + analysis + t[k + |ANALYSIS|..] != front + analysis + tail
  {
    var n, e := |ANALYSIS|, p + |analysis|;
    var done, target := t[..k] + analysis + t[k + n..], front + analysis + tail;
    assert t[p + n - 1] == t[p..p + n][n - 1] == '}' && t[p + n - 2] == t[p..p + n][n - 2] == 's';
    assert done[e - 1] == t[p + n - 1] && done[e - 2] == t[p + n - 2];
    assert target[e - 1] == analysis[|analysis| - 1] && target[e - 2] == analysis[|analysis| - 2];
  }

  lemma SlotStandsAt(front: string, tail: string)
    ensures OccursAt(ANALYSIS, front + ANALYSIS + tail, |front|)
  {
    assert (front + ANALYSIS + tail)[|front|..|front| + |ANALYSIS|] == ANALYSIS;
  }

  lemma NoOverlap(t: string, k: int, p: int)
    requires OccursAt(ANALYSIS, t, k) && OccursAt(ANALYSIS, t, p) && k < p
    ensures k + |ANALYSIS| <= p
  {
    var n := |ANALYSIS|;
    assert t[p] == t[p..p + n][0] == '{';
    assert forall m :: 0 < m < n ==> ANALYSIS[m] != '{';
    assert forall q :: k < q < k + n ==> t[q] == t[k..k + n][q - k];
  }

  lemma StolenShape(s: string, responses: string)
    requires Index(s, RESPONSES) >= 0 && responses != ""
    ensures
      var j := Index(s, RESPONSES);
      var t := ReplaceFirst(s, RESPONSES, responses);
      j < |t| && t[j] == responses[0] && t[..j] == s[..j]
  {
  }

  lemma EarlyAnalysis(t: string, analysis: string, target: string, j: int)
    requires 0 <= j < |t| && j < |target| && t[j] == '#' && target[j] != '#' && AnalysisText(analysis)
    requires forall k :: 0 <= k < j ==> t[k] == target[k]
    ensures ReplaceFirst(t, ANALYSIS, analysis) != target
  {
    AnalysisShape(analysis);
    var k := Index(t, ANALYSIS);
    if 0 <= k <= j {
      assert t[k..k + |ANALYSIS|][1] == t[k + 1] == 'a';
      assert ReplaceFirst(t, ANALYSIS, analysis)[k + 1] == analysis[1];
    }
  }

  /** Question, answers and analysis each go into their own slot exactly when no text
      inserted earlier contains a placeholder that is filled later. */
  lemma SynthSlotsExactly(head: string, mid: string, mid2: string, tail: string, question: string, responses: string, analysis: string)
    requires SynthParts(head, mid, mid2, responses, analysis)
    ensures FillSynth(SynthPrompt(head, mid, mid2, tail), question, responses, analysis)
            == head + question + mid + responses + mid2 + analysis + tail
            <==> SlotsSafe(question, responses)
  {
    hide ReplaceFirst;
    if Contains(question, RESPONSES) {
      StolenSlotShows(head, mid, mid2, tail, question, responses, analysis);
    } else {
      JudgeSlotsExactly(head, mid, mid2 + ANALYSIS + tail, question, responses);
      assert SynthPrompt(head, mid, mid2, tail) == JudgePrompt(head, mid, mid2 + ANALYSIS + tail);
      var x := head + question + mid + responses + mid2;
      assert head + question + mid + responses + (mid2 + ANALYSIS + tail) == x + ANALYSIS + tail;
      AnalysisShape(analysis);
      if Contains(question, ANALYSIS) || Contains(responses, ANALYSIS) {
        var i := AnalysisSlotTaken(head, question, mid, responses, mid2, tail);
        ReplaceElsewhere(x, ANALYSIS, tail, analysis, i);
      } else {
        AnalysisSlotFree(head, question, mid, responses, mid2, tail);
        ReplaceAtSlot(x, ANALYSIS, tail, analysis);
      }
    }
  }
}
