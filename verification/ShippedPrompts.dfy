/** The judge and synthesiser prompts as shipped: their opening and the titles between their
    slots are fixed here, and what follows the last slot may be any text.
 */
module ShippedPrompts {
  import opened TextSearch
  import opened Whitespace
  import opened Transforms
  import opened Prompts
  import opened FusionMessages

  type PlainText = s: string | '{' !in s witness ""

  const JUDGE1: PlainText := "You are a structural " + "judge analyzing "
  const JUDGE2: PlainText := "responses from a " + "panel of AI models. "
  const JUDGE3: PlainText := "Your job is to " + "extract the structure "
  const JUDGE4: PlainText := "of agreement and " + "disagreement — NOT to "
  const JUDGE5: PlainText := "answer the question " + "yourself.\n\n## "
  const JUDGE_HEAD := JUDGE1 + (JUDGE2 + (JUDGE3 + (JUDGE4 + (JUDGE5 + "Original Question\n"))))

  const SYNTH1: PlainText := "You are the " + "synthesizer for a "
  const SYNTH2: PlainText := "model fusion panel. " + "Your job is to write "
  const SYNTH3: PlainText := "the best possible " + "answer to the "
  const SYNTH4: PlainText := "original question, " + "grounded in the "
  const SYNTH5: PlainText := "structural analysis " + "of multiple model "
  const SYNTH6 := "responses.\n\n## " + "Original Question\n"
  const SYNTH_HEAD := SYNTH1 + (SYNTH2 + (SYNTH3 + (SYNTH4 + (SYNTH5 + SYNTH6))))

  const ANSWERS_TITLE := "\n\n## Panelist Responses\n"
  const ANALYSIS_TITLE := "\n\n## Judge Analysis " + "(structural extraction)\n"

  lemma HeadsAndTitles()
    ensures LineText(JUDGE_HEAD) && LineText(SYNTH_HEAD)
    ensures Between(ANSWERS_TITLE) && Between(ANALYSIS_TITLE)
  {
    assert '{' !in "\n\n## Judge Analysis " && '{' !in "(structural extraction)\n";
  }

  function FilledJudge(tail: string, question: string, rs: seq<Response>): string {
    FillJudge(JudgePrompt(JUDGE_HEAD, ANSWERS_TITLE, tail), question, Formatted(rs))
  }

  function FilledSynth(tail: string, question: string, rs: seq<Response>, analysis: string): string {
    FillSynth(SynthPrompt(SYNTH_HEAD, ANSWERS_TITLE, ANALYSIS_TITLE, tail), question, Formatted(rs), analysis)
  }

  lemma AnswersOf(rs: seq<Response>)
    ensures AnswersText(Formatted(rs))
  {
    FormattedStarts(rs);
  }

  /** The shipped judge prompt, for any panel: question and answers in their own places exactly
      when the question does not contain the answers' placeholder; and the judge of any model
      family is then sent just that. */
  lemma JudgeIsAsked(f: Family, tail: string, question: string, rs: seq<Response>)
    ensures
      var intended := JUDGE_HEAD + question + ANSWERS_TITLE + Formatted(rs) + tail;
      && (FilledJudge(tail, question, rs) == intended <==> !Contains(question, RESPONSES))
      && (!Contains(question, RESPONSES) ==>
            Transformed(f, JudgeSpec(FilledJudge(tail, question, rs))).user == TrimSpace(intended))
  {
    hide *;
    HeadsAndTitles();
    AnswersOf(rs);
    FilledJudgeIs(tail, question, rs);
    JudgeSlotsExactly(JUDGE_HEAD, ANSWERS_TITLE, tail, question, Formatted(rs));
    if !Contains(question, RESPONSES) {
      JudgeMessage(f, JUDGE_HEAD, ANSWERS_TITLE, tail, question, rs);
    }
  }

  lemma FilledJudgeIs(tail: string, question: string, rs: seq<Response>)
    ensures FilledJudge(tail, question, rs) == FillJudge(JudgePrompt(JUDGE_HEAD, ANSWERS_TITLE, tail), question, Formatted(rs))
  {
  }

  /** The shipped synthesiser prompt, likewise with the analysis. */
  lemma SynthesiserIsAsked(f: Family, tail: string, question: string, rs: seq<Response>, analysis: string)
    requires AnalysisText(analysis)
    ensures
      var intended := SYNTH_HEAD + question + ANSWERS_TITLE + Formatted(rs) + ANALYSIS_TITLE + analysis + tail;
      && (FilledSynth(tail, question, rs, analysis) == intended <==> SlotsSafe(question, Formatted(rs)))
      && (SlotsSafe(question, Formatted(rs)) ==>
            Transformed(f, SynthSpec(FilledSynth(tail, question, rs, analysis))).user == TrimSpace(intended))
  {
    SynthPartsAre(rs, analysis);
    hide *;
    HeadsAndTitles();
    SynthSlotsExactly(SYNTH_HEAD, ANSWERS_TITLE, ANALYSIS_TITLE, tail, question, Formatted(rs), analysis);
    if SlotsSafe(question, Formatted(rs)) {
      SynthMessage(f, SYNTH_HEAD, ANSWERS_TITLE, ANALYSIS_TITLE, tail, question, rs, analysis);
    }
  }

  lemma SynthPartsAre(rs: seq<Response>, analysis: string)
    requires AnalysisText(analysis)
    ensures SynthParts(SYNTH_HEAD, ANSWERS_TITLE, ANALYSIS_TITLE, Formatted(rs), analysis)
  {
    hide LineText, Between, AnswersText, AnalysisText;
    HeadsAndTitles();
    AnswersOf(rs);
  }

  /** Questions that spoil the prompts: one that names the answers' placeholder, and for the
      synthesiser also one that names the analysis's. */
  lemma QuestionsCanSpoil(tail: string, rs: seq<Response>, analysis: string)
    requires AnalysisText(analysis)
    ensures FilledJudge(tail, "{responses}", rs) != JUDGE_HEAD + "{responses}" + ANSWERS_TITLE + Formatted(rs) + tail
    ensures FilledSynth(tail, "{analysis}", rs, analysis)
            != SYNTH_HEAD + "{analysis}" + ANSWERS_TITLE + Formatted(rs) + ANALYSIS_TITLE + analysis + tail
  {
    assert RESPONSES[0..0 + |RESPONSES|] == RESPONSES && OccursAt(RESPONSES, "{responses}", 0);
    assert ANALYSIS[0..0 + |ANALYSIS|] == ANALYSIS && OccursAt(ANALYSIS, "{analysis}", 0);
    assert Contains("{responses}", RESPONSES) && Contains("{analysis}", ANALYSIS);
    assert !SlotsSafe("{analysis}", Formatted(rs));
    hide *;
    JudgeIsAsked(Claude, tail, "{responses}", rs);
    SynthesiserIsAsked(Claude, tail, "{analysis}", rs, analysis);
  }
}
