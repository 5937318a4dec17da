/** The shipped prompt templates and the translation of a task specification into the system
    and user messages for one model family.
 */
module Transforms {
  import opened TextSearch
  import opened Whitespace
  import opened Rendering

  datatype Family = Claude | Gpt | Glm | Qwen

  // ----- Which family a model belongs to -----

  function ToLower(s: string): string {
    seq(|s|, i requires 0 <= i < |s| =>
      if 'A' <= s[i] <= 'Z' then (s[i] as int + 32) as char else s[i])
  }

  predicate Mentions(m: string, word: string) {
    Index(m, word) >= 0
  }

  /** "qwopus" contains "opus", so the qwen names are looked for first. */
  function FamilyOf(model: string): Family {
    var m := ToLower(model);
    if Mentions(m, "qwen") || Mentions(m, "qwopus") || Mentions(m, "ollama") || Mentions(m, "turboquant") then Qwen
    else if Mentions(m, "claude") || Mentions(m, "opus") || Mentions(m, "sonnet") || Mentions(m, "haiku") then Claude
    else if Mentions(m, "gpt") then Gpt
    else if Mentions(m, "glm") then Glm
    else Claude
  }

  /** Only the letters A to Z are changed, each to its small form. */
  lemma LowerCase(s: string, i: nat)
    requires i < |s|
    ensures |ToLower(s)| == |s|
    ensures if 'A' <= s[i] <= 'Z' then ToLower(s)[i] as int == s[i] as int + 32 else ToLower(s)[i] == s[i]
  {
  }

  /** The families by the names a model mentions, the qwen names first: "qwopus" mentions "opus". */
  lemma FamilyExactly(model: string)
    ensures
      var m := ToLower(model);
      var qwen := Contains(m, "qwen") || Contains(m, "qwopus") || Contains(m, "ollama") || Contains(m, "turboquant");
      var claude := Contains(m, "claude") || Contains(m, "opus") || Contains(m, "sonnet") || Contains(m, "haiku");
      && (FamilyOf(model) == Qwen <==> qwen)
      && (FamilyOf(model) == Gpt <==> !qwen && !claude && Contains(m, "gpt"))
      && (FamilyOf(model) == Glm <==> !qwen && !claude && !Contains(m, "gpt") && Contains(m, "glm"))
  {
    hide Mentions;
    var m := ToLower(model);
    MentionsIt(m, "qwen");
    MentionsIt(m, "qwopus");
    MentionsIt(m, "ollama");
    MentionsIt(m, "turboquant");
    MentionsIt(m, "claude");
    MentionsIt(m, "opus");
    MentionsIt(m, "sonnet");
    MentionsIt(m, "haiku");
    MentionsIt(m, "gpt");
    MentionsIt(m, "glm");
  }

  lemma MentionsIt(m: string, word: string)
    ensures Mentions(m, word) <==> Contains(m, word)
  {
    if Mentions(m, word) {
      assert OccursAt(word, m, Index(m, word));
    }
  }

  // ----- The templates -----

  const AVOID1: Literal := Joined("Only make changes ", "directly requested ")
  const AVOID2: Literal := Joined("or clearly necessary. ", "Do not add features,\n")
  const AVOID3: Literal := Joined("refactor, or make ", "improvements beyond ")
  const AVOID4: Literal := Joined("what was asked. Do not ", "create helpers for\n")
  const AVOID5: Literal := Joined("one-time operations. ", "Trust internal code and ")
  const AVOID6: Literal := Joined("framework guarantees; ", "validate only\n")
  const AVOID7: Literal := "at system boundaries.\n"
  const AVOID_CLOSE: Literal := "</avoid_overengineering>"
  const AVOID_OPEN: Literal := "<avoid_overengineering>\n"
  const AVOID: Literal :=
    Joined(AVOID_OPEN, Joined(AVOID1, Joined(AVOID2, Joined(AVOID3, Joined(AVOID4, Joined(AVOID5, Joined(AVOID6, Joined(AVOID7, AVOID_CLOSE))))))))
  const VERIFY1: Literal := Joined("\n\nBefore you finish, ", "verify your answer ")
  const VERIFY2: Literal := Joined("against the stated ", "requirements.\n\n")
  const VERIFY: Literal := Joined(VERIFY1, VERIFY2)
  const ALIBABA1: Literal := Joined("You are Qwen, created ", "by Alibaba Cloud. ")
  const ALIBABA2: Literal := Joined("You are a helpful ", "assistant.\n")
  const ALIBABA: Literal := Joined(ALIBABA1, ALIBABA2)

  const ROLE: Key := "role"
  const TASK: Key := "task"
  const CONTEXT: Key := "context"
  const CONSTRAINTS: Key := "constraints"
  const OUTPUT_FORMAT: Key := "output_format"
  const GUIDANCE: Key := "guidance_blocks"
  const ROLE_EXPANSION: Key := "role_expansion"

  const INSTRUCTIONS_OPEN: Literal := "\n\n<instructions>\n"
  const INSTRUCTIONS_CLOSE: Literal := Joined("\n</instructions>\n\n", "<context>\n")
  const CONTEXT_CLOSE: Literal := Joined("\n</context>\n\n", "<constraints>\n")
  const CONSTRAINTS_CLOSE: Literal := Joined("\n</constraints>\n\n", "<output_format>\n")
  const FORMAT_CLOSE: Literal := Joined("\n</output_format>\n\n", Joined(AVOID, "\n\n"))
  const ROLE_CLOSE: Literal := Joined("</role>\n\n", "<task>")
  const TASK_CLOSE: Literal := Joined("</task>\n\n", "<context>")
  const PRINCIPLES_OPEN: Literal := Joined("</context>\n\n", "<guiding_principles>\n")
  const PRINCIPLES_END: Literal := "\n</guiding_principles>\n\n"
  const REQUIREMENTS_OPEN: Literal := "<output_requirements>"
  const PRINCIPLES_CLOSE: Literal := Joined(PRINCIPLES_END, REQUIREMENTS_OPEN)
  const REQUIREMENTS_CLOSE: Literal := "</output_requirements>\n\n"
  const CONTEXT_LABEL: Literal := "\n\nContext: "
  const CONSTRAINTS_LABEL: Literal := "\n\nConstraints: "
  const ANSWER_LABEL: Literal := "\n\nRespond concisely. "
  const STOP: Literal := ". "
  const LINE: Literal := "\n"
  const BLANK_LINE: Literal := "\n\n"

  function Lead(f: Family): string {
    match f
    case Claude => "[SYSTEM]" + "\n" + "You are Claude. "
    case Gpt => "[SYSTEM]" + "\n" + "<role>"
    case Glm => "[SYSTEM]" + "\n" + "You are "
    case Qwen => "[SYSTEM]" + "\n" + ALIBABA
  }

  function Parts(f: Family): seq<Part> {
    match f
    case Claude => [
      Part(ROLE, INSTRUCTIONS_OPEN),
      Part(TASK, INSTRUCTIONS_CLOSE),
      Part(CONTEXT, CONTEXT_CLOSE),
      Part(CONSTRAINTS, CONSTRAINTS_CLOSE),
      Part(OUTPUT_FORMAT, FORMAT_CLOSE),
      Part(GUIDANCE, VERIFY)]
    case Gpt => [
      Part(ROLE, ROLE_CLOSE),
      Part(TASK, TASK_CLOSE),
      Part(CONTEXT, PRINCIPLES_OPEN),
      Part(CONSTRAINTS, PRINCIPLES_CLOSE),
      Part(OUTPUT_FORMAT, REQUIREMENTS_CLOSE),
      Part(GUIDANCE, BLANK_LINE)]
    case Glm => [
      Part(ROLE, STOP),
      Part(CONTEXT, CONSTRAINTS_LABEL),
      Part(CONSTRAINTS, ANSWER_LABEL),
      Part(OUTPUT_FORMAT, LINE),
      Part(GUIDANCE, BLANK_LINE)]
    case Qwen => [
      Part(ROLE_EXPANSION, CONTEXT_LABEL),
      Part(CONTEXT, CONSTRAINTS_LABEL),
      Part(CONSTRAINTS, BLANK_LINE),
      Part(OUTPUT_FORMAT, LINE),
      Part(GUIDANCE, BLANK_LINE)]
  }

  /** Every template goes on with the marker line and the input line. */
  function Template(f: Family): string {
    Flatten(Lead(f), Parts(f)) + (USER + "\n") + "{" + "input" + "}" + "\n"
  }

  // ----- Task specifications -----

  /** A decoded JSON value; `items` and `text` are already formatted for printing. */
  datatype SpecValue = Null | Str(s: string) | List(items: seq<string>) | Other(text: string)

  type Spec = map<string, SpecValue>

  function Lookup(spec: Spec, key: string): SpecValue {
    if key in spec then spec[key] else Null
  }

  function FirstOf(spec: Spec, key: string, otherwise: string): SpecValue {
    if Lookup(spec, key) != Null then Lookup(spec, key) else Lookup(spec, otherwise)
  }

  function Join(parts: seq<string>, separator: string): string {
    if parts == [] then ""
    else if |parts| == 1 then parts[0]
    else Join(parts[..|parts| - 1], separator) + separator + parts[|parts| - 1]
  }

  function Bulleted(items: seq<string>): (b: seq<string>)
    ensures |b| == |items|
  {
    seq(|items|, i requires 0 <= i < |items| => "- " + items[i])
  }

  function Coerced(v: SpecValue, fallback: string): string {
    match v
    case Null => fallback
    case Str(s) => if s == "" then fallback else s
    case List(items) => Join(Bulleted(items), "\n")
    case Other(text) => text
  }

  method CoerceStr(v: SpecValue, fallback: string) returns (text: string)
    ensures text == Coerced(v, fallback)
  {
    match v {
      case Null =>
        text := fallback;
      case Str(s) =>
        text := if s == "" then fallback else s;
      case List(items) =>
        var parts: seq<string> := [];
        for i := 0 to |items|
          invariant parts == Bulleted(items)[..i]
        {
          parts := parts + ["- " + items[i]];
        }
        assert Bulleted(items)[..|items|] == Bulleted(items);
        text := Join(parts, "\n");
      case Other(t) =>
        text := t;
    }
  }

  function Subs(spec: Spec): map<string, string> {
    map[
      "role" := Coerced(Lookup(spec, "role"), "an expert assistant"),
      "role_expansion" := Coerced(Lookup(spec, "role"), "an expert assistant"),
      "task" := Coerced(FirstOf(spec, "task", "input"), ""),
      "context" := Coerced(Lookup(spec, "context"), ""),
      "constraints" := Coerced(Lookup(spec, "constraints"), ""),
      "output_format" := Coerced(Lookup(spec, "output_format"), DEFAULT_FORMAT),
      "guidance_blocks" := Coerced(Lookup(spec, "guidance_blocks"), ""),
      "input" := Coerced(Lookup(spec, "input"), "")]
  }

  const DEFAULT_FORMAT := "Respond clearly and concisely."

  datatype Prompt = Prompt(system: string, user: string)

  function Transformed(f: Family, spec: Spec): Prompt {
    var (system, user) := SplitSystemUser(Render(Template(f), Subs(spec)));
    Prompt(system, user)
  }

  method TransformForModel(spec: Spec, model: string) returns (p: Prompt)
    ensures p == Transformed(FamilyOf(model), spec)
  {
    var role := CoerceStr(Lookup(spec, "role"), "an expert assistant");
    var task := CoerceStr(FirstOf(spec, "task", "input"), "");
    var context := CoerceStr(Lookup(spec, "context"), "");
    var constraints := CoerceStr(Lookup(spec, "constraints"), "");
    var format := CoerceStr(Lookup(spec, "output_format"), DEFAULT_FORMAT);
    var guidance := CoerceStr(Lookup(spec, "guidance_blocks"), "");
    var input := CoerceStr(Lookup(spec, "input"), "");
    var subs := map[
      "role" := role, "role_expansion" := role, "task" := task, "context" := context,
      "constraints" := constraints, "output_format" := format, "guidance_blocks" := guidance, "input" := input];
    var (system, user) := SplitSystemUser(Render(Template(FamilyOf(model)), subs));
    p := Prompt(system, user);
  }

  // ----- Every shipped template is well made -----

  lemma SystemLine(rest: Literal)
    ensures
      var lead := "[SYSTEM]" + "\n" + rest;
      '{' !in lead && lead[|lead| - 1] !in USER && !Contains(lead, USER)
  {
    var lead := "[SYSTEM]" + "\n" + rest;
    assert '\n' !in USER;
    NoFirstChar(USER, rest);
    forall i ensures !OccursAt(USER, lead, i) {
      OccursAroundChar(USER, "[SYSTEM]", '\n', rest, i);
      MarkerNotInSystem(i);
      assert !OccursAt(USER, rest, i - 9);
    }
  }

  lemma MarkerNotInSystem(i: int)
    ensures !OccursAt(USER, "[SYSTEM]", i)
  {
    var s := "[SYSTEM]";
    assert USER[0] == '[' && USER[1] == 'U' && |USER| == 6 && |s| == 8;
    assert s[1] == 'S' && s[2] == 'Y';
    if 0 <= i && i + 6 <= 8 {
      assert s[i..i + 6][0] == s[i] && s[i..i + 6][1] == s[i + 1];
    }
  }

  lemma LeadIsGood(f: Family)
    ensures '{' !in Lead(f) && Lead(f) != "" && Lead(f)[|Lead(f)| - 1] !in USER && !Contains(Lead(f), USER)
  {
    match f {
      case Claude => SystemLine("You are Claude. ");
      case Gpt => SystemLine("<role>");
      case Glm => SystemLine("You are ");
      case Qwen => SystemLine(ALIBABA);
    }
  }

  /** What stands in front of the marker once the placeholders are filled. */
  function Head(f: Family, subs: map<string, string>): string {
    Filled(Lead(f), Parts(f), subs)
  }

  lemma Regrouped(a: string, b: string, c: string)
    ensures a + b + c == a + (b + c)
  {
  }

  lemma RenderFillsThen(lead: string, parts: seq<Part>, lit: string, subs: map<string, string>)
    requires '{' !in lead && '{' !in lit
    ensures Render(Flatten(lead, parts) + lit, subs) == Filled(lead, parts, subs) + lit
  {
    hide Render, Flatten;
    FlattenStep(lead, parts);
    if parts == [] {
      RenderPlain(lead + lit, subs);
    } else {
      var n := |parts| - 1;
      var last := parts[n];
      var before, filled := Flatten(lead, parts[..n]), Filled(lead, parts[..n], subs);
      RenderFills(lead, parts[..n], subs);
      Regrouped(before + "{" + last.key + "}", last.literal, lit);
      RenderAround(before, last.key, last.literal + lit, subs);
      RenderPlain(last.literal + lit, subs);
      Regrouped(filled + ValueOf(subs, last.key), last.literal, lit);
    }
  }

  lemma FlattenStep(lead: string, parts: seq<Part>)
    ensures Flatten(lead, []) == lead
    ensures parts != [] ==>
              var n := |parts| - 1;
              Flatten(lead, parts) == Flatten(lead, parts[..n]) + "{" + parts[n].key + "}" + parts[n].literal
  {
  }

  lemma RenderTemplate(f: Family, subs: map<string, string>)
    ensures Render(Template(f), subs) == WithInput(Head(f, subs), ValueOf(subs, "input"))
  {
    hide Render, Flatten, Filled, Lead, Parts;
    LeadIsGood(f);
    assert IsKey("input");
    RenderFillsThen(Lead(f), Parts(f), USER + "\n", subs);
    RenderAround(Flatten(Lead(f), Parts(f)) + (USER + "\n"), "input", "\n", subs);
    RenderPlain("\n", subs);
  }

  lemma LastLiteral(f: Family)
    ensures Parts(f) != [] && Parts(f)[|Parts(f)| - 1].literal == if f == Claude then VERIFY else BLANK_LINE
  {
  }

  lemma HeadEndsLine(f: Family, subs: map<string, string>)
    ensures Head(f, subs) != "" && Head(f, subs)[|Head(f, subs)| - 1] == '\n'
  {
    hide Lead, Parts, ValueOf;
    LastLiteral(f);
    var n := |Parts(f)| - 1;
    var last := Parts(f)[n];
    var before := Filled(Lead(f), Parts(f)[..n], subs) + ValueOf(subs, last.key);
    assert Head(f, subs) == before + last.literal;
  }

  /** For every shipped template the user message is the trimmed input exactly when none of
      the values filled in before it contains the marker "[USER]". */
  lemma UserMessageExactly(f: Family, spec: Spec)
    ensures Transformed(f, spec).user == TrimSpace(Subs(spec)["input"]) <==> !MarkerInValue(Parts(f), Subs(spec))
    ensures !MarkerInValue(Parts(f), Subs(spec)) ==>
              Transformed(f, spec).system == TrimSpace(ReplaceFirst(Head(f, Subs(spec)), SYSTEM, ""))
  {
    hide Render, Parts, Lead, TrimSpace, Template, SplitSystemUser, Subs, Filled, MarkerInValue, ReplaceFirst;
    var subs := Subs(spec);
    TextsAreSubs(spec);
    RenderTemplate(f, subs);
    HeadEndsLine(f, subs);
    UserPartExactly(Head(f, subs), subs["input"]);
    LeadIsGood(f);
    MarkerOnlyInValues(Lead(f), Parts(f), subs);
  }

  // ----- What the messages say -----

  lemma JoinGrows(parts: seq<string>, x: string, separator: string)
    ensures Join([], separator) == ""
    ensures Join(parts + [x], separator) == if parts == [] then x else Join(parts, separator) + separator + x
  {
    assert (parts + [x])[..|parts|] == parts;
  }

  /** How a field becomes text: missing, null and empty ones give the fallback, a string itself, a
      list one dashed line per item, and anything else its printed form. */
  lemma CoercedAs(spec: Spec, key: string, fallback: string, items: seq<string>, x: string)
    ensures key !in spec || spec[key] == Null || spec[key] == Str("") ==> Coerced(Lookup(spec, key), fallback) == fallback
    ensures forall s :: s != "" && key in spec && spec[key] == Str(s) ==> Coerced(Lookup(spec, key), fallback) == s
    ensures forall s :: key in spec && spec[key] == Other(s) ==> Coerced(Lookup(spec, key), fallback) == s
    ensures Coerced(List([]), fallback) == ""
    ensures Coerced(List(items + [x]), fallback)
         == (if items == [] then "" else Coerced(List(items), fallback) + "\n") + "- " + x
  {
    assert Bulleted(items + [x]) == Bulleted(items) + ["- " + x];
    JoinGrows(Bulleted(items), "- " + x, "\n");
  }

  lemma FilledStep(lead: string, parts: seq<Part>, p: Part, subs: map<string, string>)
    ensures Filled(lead, [], subs) == lead
    ensures Filled(lead, parts + [p], subs) == Filled(lead, parts, subs) + ValueOf(subs, p.key) + p.literal
  {
    assert (parts + [p])[..|parts|] == parts;
  }

  /** The texts a specification gives the fields of a system message. */
  datatype SpecTexts = SpecTexts(role: string, task: string, context: string, constraints: string, format: string, guidance: string)

  function TextsOf(spec: Spec): SpecTexts {
    SpecTexts(
      Coerced(Lookup(spec, "role"), "an expert assistant"),
      Coerced(if Lookup(spec, "task") != Null then Lookup(spec, "task") else Lookup(spec, "input"), ""),
      Coerced(Lookup(spec, "context"), ""),
      Coerced(Lookup(spec, "constraints"), ""),
      Coerced(Lookup(spec, "output_format"), "Respond clearly and concisely."),
      Coerced(Lookup(spec, "guidance_blocks"), ""))
  }

  lemma TextsAreSubs(spec: Spec)
    ensures
      var subs, x := Subs(spec), TextsOf(spec);
      && AreSubs(subs, x)
      && "input" in subs && subs["input"] == Coerced(Lookup(spec, "input"), "")
  {
    hide Coerced, Lookup;
  }

  /** What each family's model is told, field by field under its own label. */
  function Told(f: Family, x: SpecTexts): string {
    match f
    case Claude =>
      "[SYSTEM]" + "\n" + "You are Claude. " + x.role + "\n\n<instructions>\n" + x.task + ("\n</instructions>\n\n" + "<context>\n")
      + x.context + ("\n</context>\n\n" + "<constraints>\n") + x.constraints
      + ("\n</constraints>\n\n" + "<output_format>\n") + x.format
      + ("\n</output_format>\n\n" + (AVOID + "\n\n")) + x.guidance + VERIFY
    case Gpt =>
      "[SYSTEM]" + "\n" + "<role>" + x.role + ("</role>\n\n" + "<task>") + x.task + ("</task>\n\n" + "<context>") + x.context
      + ("</context>\n\n" + "<guiding_principles>\n") + x.constraints
      + ("\n</guiding_principles>\n\n" + "<output_requirements>") + x.format + "</output_requirements>\n\n"
      + x.guidance + "\n\n"
    case Glm =>
      "[SYSTEM]" + "\n" + "You are " + x.role + ". " + x.context + "\n\nConstraints: " + x.constraints + "\n\nRespond concisely. "
      + x.format + "\n" + x.guidance + "\n\n"
    case Qwen =>
      "[SYSTEM]" + "\n" + ALIBABA + x.role + "\n\nContext: " + x.context + "\n\nConstraints: " + x.constraints + "\n\n"
      + x.format + "\n" + x.guidance + "\n\n"
  }

  predicate AreSubs(subs: map<string, string>, x: SpecTexts) {
    && ValueOf(subs, "role") == x.role && ValueOf(subs, "role_expansion") == x.role
    && ValueOf(subs, "task") == x.task && ValueOf(subs, "context") == x.context
    && ValueOf(subs, "constraints") == x.constraints && ValueOf(subs, "output_format") == x.format
    && ValueOf(subs, "guidance_blocks") == x.guidance
  }

  lemma FilledFive(lead: string, p: seq<Part>, subs: map<string, string>)
    requires |p| == 5
    ensures Filled(lead, p, subs)
         == lead + ValueOf(subs, p[0].key) + p[0].literal + ValueOf(subs, p[1].key) + p[1].literal
            + ValueOf(subs, p[2].key) + p[2].literal + ValueOf(subs, p[3].key) + p[3].literal
            + ValueOf(subs, p[4].key) + p[4].literal
  {
    hide Filled, ValueOf;
    FilledStep(lead, [], p[0], subs);
    FilledStep(lead, p[..1], p[1], subs);
    FilledStep(lead, p[..2], p[2], subs);
    FilledStep(lead, p[..3], p[3], subs);
    FilledStep(lead, p[..4], p[4], subs);
    assert [] + [p[0]] == p[..1] && p[..1] + [p[1]] == p[..2] && p[..2] + [p[2]] == p[..3];
    assert p[..3] + [p[3]] == p[..4] && p[..4] + [p[4]] == p;
  }

  lemma FilledSix(lead: string, p: seq<Part>, subs: map<string, string>)
    requires |p| == 6
    ensures Filled(lead, p, subs)
         == lead + ValueOf(subs, p[0].key) + p[0].literal + ValueOf(subs, p[1].key) + p[1].literal
            + ValueOf(subs, p[2].key) + p[2].literal + ValueOf(subs, p[3].key) + p[3].literal
            + ValueOf(subs, p[4].key) + p[4].literal + ValueOf(subs, p[5].key) + p[5].literal
  {
    hide ValueOf;
    FilledFive(lead, p[..5], subs);
    FilledStep(lead, p[..5], p[5], subs);
    assert p[..5] + [p[5]] == p;
  }

  lemma ClaudeFilled(subs: map<string, string>, x: SpecTexts)
    requires AreSubs(subs, x)
    ensures Head(Claude, subs) == Told(Claude, x)
  {
    var lead, p := Lead(Claude), Parts(Claude);
    hide ValueOf, Filled;
    FilledSix(lead, p, subs);
  }

  lemma GptFilled(subs: map<string, string>, x: SpecTexts)
    requires AreSubs(subs, x)
    ensures Head(Gpt, subs) == Told(Gpt, x)
  {
    var lead, p := Lead(Gpt), Parts(Gpt);
    hide ValueOf, Filled;
    FilledSix(lead, p, subs);
  }

  lemma GlmFilled(subs: map<string, string>, x: SpecTexts)
    requires AreSubs(subs, x)
    ensures Head(Glm, subs) == Told(Glm, x)
  {
    var lead, p := Lead(Glm), Parts(Glm);
    hide ValueOf, Filled;
    FilledFive(lead, p, subs);
  }

  lemma QwenFilled(subs: map<string, string>, x: SpecTexts)
    requires AreSubs(subs, x)
    ensures Head(Qwen, subs) == Told(Qwen, x)
  {
    var lead, p := Lead(Qwen), Parts(Qwen);
    hide ValueOf, Filled;
    FilledFive(lead, p, subs);
  }

  lemma HeadIsTold(f: Family, subs: map<string, string>, x: SpecTexts)
    requires AreSubs(subs, x)
    ensures Head(f, subs) == Told(f, x)
  {
    hide Head, Told;
    match f {
      case Claude => ClaudeFilled(subs, x);
      case Gpt => GptFilled(subs, x);
      case Glm => GlmFilled(subs, x);
      case Qwen => QwenFilled(subs, x);
    }
  }

  /** None of the texts in front of the input contains the marker. */
  ghost predicate MarkerFree(f: Family, x: SpecTexts) {
    && !Contains(x.role, "[USER]") && !Contains(x.context, "[USER]") && !Contains(x.constraints, "[USER]")
    && !Contains(x.format, "[USER]") && !Contains(x.guidance, "[USER]")
    && (f == Claude || f == Gpt ==> !Contains(x.task, "[USER]"))
  }

  lemma KeysOf(f: Family)
    ensures
      var p := Parts(f);
      match f
      case Claude | Gpt =>
        && |p| == 6 && p[0].key == "role" && p[1].key == "task" && p[2].key == "context"
        && p[3].key == "constraints" && p[4].key == "output_format" && p[5].key == "guidance_blocks"
      case Glm | Qwen =>
        && |p| == 5 && p[0].key == (if f == Glm then "role" else "role_expansion") && p[1].key == "context"
        && p[2].key == "constraints" && p[3].key == "output_format" && p[4].key == "guidance_blocks"
  {
  }

  lemma MarkerFreeIs(f: Family, subs: map<string, string>, x: SpecTexts)
    requires AreSubs(subs, x)
    ensures MarkerInValue(Parts(f), subs) <==> !MarkerFree(f, x)
  {
    hide Contains, ValueOf, Parts;
    KeysOf(f);
    var p := Parts(f);
    forall i | 0 <= i < |p| ensures Contains(ValueOf(subs, p[i].key), USER) ==> MarkerInValue(p, subs) {
    }
  }

  /** For every specification and family: the user message is exactly the trimmed input if and
      only if no text in front of it contains the marker, and then the system message says what
      `Told` says, each field under its own label, without the leading marker. */
  lemma MessagesAre(f: Family, spec: Spec)
    ensures
      var x := TextsOf(spec);
      && (Transformed(f, spec).user == TrimSpace(Coerced(Lookup(spec, "input"), "")) <==> MarkerFree(f, x))
      && (MarkerFree(f, x) ==> Transformed(f, spec).system == TrimSpace(ReplaceFirst(Told(f, x), "[SYSTEM]", "")))
  {
    hide Transformed, Parts, Subs, Told, Head, TrimSpace, ReplaceFirst, Coerced, Lookup, TextsOf, MarkerFree, MarkerInValue;
    var x, subs := TextsOf(spec), Subs(spec);
    TextsAreSubs(spec);
    HeadIsTold(f, subs, x);
    MarkerFreeIs(f, subs, x);
    UserMessageExactly(f, spec);
  }
}
