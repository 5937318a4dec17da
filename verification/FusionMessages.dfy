/** What the judge, the synthesiser and the panelists are actually sent: filled prompts and
    fallback specifications passed through the family templates.
 */
module FusionMessages {
  import opened TextSearch
  import opened Whitespace
  import opened Rendering
  import opened Transforms
  import opened Prompts

  /** A text without the bracket every marker starts with. */
  type CleanText = s: string | '[' !in s witness ""

  function Both(a: CleanText, b: CleanText): (s: CleanText)
    ensures s == a + b
  {
    a + b
  }

  const JUDGE_ROLE1: CleanText := Both("a consensus ", "analyst evaluating ")
  const JUDGE_ROLE: CleanText := Both(JUDGE_ROLE1, Both("panelist ", "responses"))
  const JUDGE_TASK1: CleanText := Both("Analyze panelist ", "responses and extract ")
  const JUDGE_TASK2: CleanText := Both("consensus, contradictions, ", "and insights.")
  const JUDGE_TASK: CleanText := Both(JUDGE_TASK1, JUDGE_TASK2)
  const JUDGE_FORMAT: CleanText := Both(Both("JSON object per ", "the schema "), Both("in the ", "instructions"))
  const SYNTH_ROLE1: CleanText := Both("a synthesis expert ", "producing the ")
  const SYNTH_ROLE: CleanText := Both(SYNTH_ROLE1, Both("final unified ", "answer"))
  const SYNTH_TASK1: CleanText := Both("Synthesize the panelist ", "responses and judge ")
  const SYNTH_TASK2: CleanText := Both("analysis into one ", "coherent answer.")
  const SYNTH_TASK: CleanText := Both(SYNTH_TASK1, SYNTH_TASK2)
  const SYNTH_FORMAT1: CleanText := Both("The refined, ", "coherent final ")
  const SYNTH_FORMAT: CleanText := Both(SYNTH_FORMAT1, Both("answer in natural ", "prose"))

  /** A specification whose fixed parts come from the program and whose input is a prompt. */
  function FixedSpec(role: string, task: string, format: string, input: string): Spec {
    map["role" := Str(role), "task" := Str(task), "output_format" := Str(format), "input" := Str(input)]
  }

  function JudgeSpec(filled: string): Spec {
    FixedSpec(JUDGE_ROLE, JUDGE_TASK, JUDGE_FORMAT, filled)
  }

  function SynthSpec(filled: string): Spec {
    FixedSpec(SYNTH_ROLE, SYNTH_TASK, SYNTH_FORMAT, filled)
  }

  /** Judge and synthesiser are given their own role, task and answer format, and nothing else. */
  lemma SpecsSay(filled: string)
    ensures TextsOf(JudgeSpec(filled)) == SpecTexts(JUDGE_ROLE, JUDGE_TASK, "", "", JUDGE_FORMAT, "")
    ensures TextsOf(SynthSpec(filled)) == SpecTexts(SYNTH_ROLE, SYNTH_TASK, "", "", SYNTH_FORMAT, "")
    ensures Coerced(Lookup(JudgeSpec(filled), "input"), "") == filled
    ensures Coerced(Lookup(SynthSpec(filled), "input"), "") == filled
  {
  }

  /** Used when the deliberator gives nothing usable: the raw question also fills the task slot. */
  function FallbackSpec(raw: string): Spec {
    map[
      "role" := Str("an expert assistant"), "task" := Str(raw), "context" := Str(""), "constraints" := List([]),
      "output_format" := Str(DEFAULT_FORMAT), "guidance_blocks" := Str(""), "input" := Str(raw)]
  }

  predicate HeadKey(k: string) {
    k in ["role", "role_expansion", "task", "context", "constraints", "output_format", "guidance_blocks"]
  }

  lemma PartsUseHeadKeys(f: Family)
    ensures forall i :: 0 <= i < |Parts(f)| ==> HeadKey(Parts(f)[i].key)
  {
    hide Parts;
    KeysOf(f);
  }

  lemma NoMarkerInClean(s: CleanText)
    ensures !Contains(s, USER)
  {
    NoFirstChar(USER, s);
  }

  /** With marker-free fixed parts the user message is the trimmed input, for every family. */
  lemma FixedSpecMessage(f: Family, role: CleanText, task: CleanText, format: CleanText, input: string)
    requires role != "" && task != "" && format != ""
    ensures Transformed(f, FixedSpec(role, task, format, input)).user == TrimSpace(input)
  {
    hide Transformed, Parts, TrimSpace, Contains;
    var spec := FixedSpec(role, task, format, input);
    NoMarkerInClean(role);
    NoMarkerInClean(task);
    NoMarkerInClean(format);
    NoMarkerInClean("");
    PartsUseHeadKeys(f);
    UserMessageExactly(f, spec);
  }

  /** What the judge is asked: whatever the family of its model, the question and the panel's
      answers, each in its own place, unless the question contains the answers' placeholder. */
  lemma JudgeMessage(f: Family, head: string, mid: string, tail: string, question: string, rs: seq<Response>)
    requires LineText(head) && Between(mid) && !Contains(question, RESPONSES)
    ensures Transformed(f, JudgeSpec(FillJudge(JudgePrompt(head, mid, tail), question, Formatted(rs)))).user
            == TrimSpace(head + question + mid + Formatted(rs) + tail)
  {
    hide Transformed, FillJudge, JudgePrompt, Formatted, TrimSpace;
    FormattedStarts(rs);
    JudgeSlotsExactly(head, mid, tail, question, Formatted(rs));
    FixedSpecMessage(f, JUDGE_ROLE, JUDGE_TASK, JUDGE_FORMAT, FillJudge(JudgePrompt(head, mid, tail), question, Formatted(rs)));
  }

  /** What the synthesiser is asked, likewise with the judge's analysis. */
  lemma SynthMessage(f: Family, head: string, mid: string, mid2: string, tail: string, question: string, rs: seq<Response>, analysis: string)
    requires LineText(head) && Between(mid) && Between(mid2) && AnalysisText(analysis)
    requires SlotsSafe(question, Formatted(rs))
    ensures Transformed(f, SynthSpec(FillSynth(SynthPrompt(head, mid, mid2, tail), question, Formatted(rs), analysis))).user
            == TrimSpace(head + question + mid + Formatted(rs) + mid2 + analysis + tail)
  {
    hide Transformed, FillSynth, SynthPrompt, Formatted, TrimSpace, SlotsSafe;
    FormattedStarts(rs);
    SynthSlotsExactly(head, mid, mid2, tail, question, Formatted(rs), analysis);
    FixedSpecMessage(f, SYNTH_ROLE, SYNTH_TASK, SYNTH_FORMAT, FillSynth(SynthPrompt(head, mid, mid2, tail), question, Formatted(rs), analysis));
  }

  // ----- The fallback specification -----

  lemma FallbackSubs(raw: string)
    ensures
      Subs(FallbackSpec(raw)) == map[
        "role" := "an expert assistant", "role_expansion" := "an expert assistant", "task" := raw,
        "context" := "", "constraints" := "", "output_format" := DEFAULT_FORMAT, "guidance_blocks" := "", "input" := raw]
  {
  }

  /** The fallback tells the task and the input the raw question, the rest by default. */
  lemma FallbackSays(raw: string)
    ensures TextsOf(FallbackSpec(raw))
         == SpecTexts("an expert assistant", raw, "", "", "Respond clearly and concisely.", "")
    ensures Coerced(Lookup(FallbackSpec(raw), "input"), "") == raw
  {
  }

  /** Only these two templates have a task slot. */
  predicate ShowsTask(f: Family) {
    f == Claude || f == Gpt
  }

  lemma TaskPart(f: Family)
    ensures (exists i :: 0 <= i < |Parts(f)| && Parts(f)[i].key == "task") <==> ShowsTask(f)
  {
    hide Parts;
    KeysOf(f);
    assert |Parts(f)| > 1;
  }

  lemma DefaultsHaveNoMarker()
    ensures !Contains("an expert assistant", USER) && !Contains(DEFAULT_FORMAT, USER) && !Contains("", USER)
  {
    NoMarkerInClean("an expert assistant");
    NoMarkerInClean(DEFAULT_FORMAT);
    NoMarkerInClean("");
  }

  /** A panelist asked through the fallback specification sees exactly the trimmed question,
      unless its template has a task slot and the question contains the marker "[USER]". */
  lemma FallbackMessageExactly(f: Family, raw: string)
    ensures Transformed(f, FallbackSpec(raw)).user == TrimSpace(raw) <==> !(ShowsTask(f) && Contains(raw, USER))
  {
    hide Transformed, Parts, TrimSpace, Contains, Subs, FallbackSpec;
    var spec, subs := FallbackSpec(raw), Subs(FallbackSpec(raw));
    FallbackSubs(raw);
    DefaultsHaveNoMarker();
    PartsUseHeadKeys(f);
    TaskPart(f);
    UserMessageExactly(f, spec);
    forall i | 0 <= i < |Parts(f)|
      ensures Contains(ValueOf(subs, Parts(f)[i].key), USER) <==> Parts(f)[i].key == "task" && Contains(raw, USER)
    {
    }
  }

  /** Such a question exists: a Claude panelist asked "[USER]" is sent something else. */
  lemma FallbackCanMisplace()
    ensures Transformed(Claude, FallbackSpec(USER)).user != TrimSpace(USER)
  {
    hide Transformed, TrimSpace, FallbackSpec;
    assert USER[0..0 + |USER|] == USER;
    assert OccursAt(USER, USER, 0);
    FallbackMessageExactly(Claude, USER);
  }
}
