/** `JudgeAgent` of backend/agents/judge_agent.py: combine the two cases and
    the examination into one search text, retrieve penal-code, procedure-code
    and Evidence Act sections, quote every prior text in the prompt, and
    return the model's verdict. */
module JudgeAgent {
  import opened PyText
  import opened Records
  import opened Courtroom
  import CrossExaminerAgent
  import Retriever

  /** The system message of `_call_groq_api`. */
  const Persona := "You are a respected Judge issuing a legally sound verdict."

  const Temperature: real := 0.2

  const MaxTokens: nat := 600

  /** The combined text uses this many characters of each prior text. */
  const InputCut := 200

  /** The verdict records this many characters of the combined text. */
  const SummaryInputLength := 500

  /** The dictionary `render_verdict` returns. */
  datatype Verdict = Verdict(
    role: string,
    summaryInput: string,
    retrievedSections: seq<RetrievalResult>,
    verdict: string)

  /** `_combine_inputs`. */
  function CombineInputs(p: Case, d: Case, x: CrossExaminerAgent.Examination): string {
    p.crimeDescription + " | " + Take(p.argument, InputCut) + " | " + Take(d.argument, InputCut) + " | " + Take(x.questions, InputCut)
  }

  /** The combined text starts with the crime and a separator, and adds at
      most 200 characters of each of the three prior texts. */
  lemma CombinedInputsLayout(p: Case, d: Case, x: CrossExaminerAgent.Examination)
    ensures var r := CombineInputs(p, d, x);
      && |r| == |p.crimeDescription| + 9
         + Min(|p.argument|, InputCut) + Min(|d.argument|, InputCut) + Min(|x.questions|, InputCut)
      && r[..|p.crimeDescription| + 3] == p.crimeDescription + " | "
      && OccursAt(r, Take(p.argument, InputCut), |p.crimeDescription| + 3)
  {
    var pa := Take(p.argument, InputCut);
    var rest := " | " + Take(d.argument, InputCut) + " | " + Take(x.questions, InputCut);
    var r := CombineInputs(p, d, x);
    assert r == p.crimeDescription + " | " + pa + rest;
    OccursInMiddle(p.crimeDescription + " | ", pa, rest);
  }

  /** Only the crime and the first 200 characters of each prior text reach
      the search text. */
  lemma CombinedInputsSeePrefixes(p: Case, d: Case, x: CrossExaminerAgent.Examination, p': Case, d': Case, x': CrossExaminerAgent.Examination)
    requires p.crimeDescription == p'.crimeDescription
    requires Take(p.argument, InputCut) == Take(p'.argument, InputCut)
    requires Take(d.argument, InputCut) == Take(d'.argument, InputCut)
    requires Take(x.questions, InputCut) == Take(x'.questions, InputCut)
    ensures CombineInputs(p, d, x) == CombineInputs(p', d', x')
  {
  }

  /** The three retrievals of `render_verdict`, in the order their results
      are concatenated. */
  function Queries(combinedInput: string): seq<Query> {
    [Query("ipc", combinedInput, 2), Query("crpc", "criminal procedure", 1), Query("evidence_act", "burden of proof", 1)]
  }

  /** The fixed text of the prompt, around the quoted inputs. */
  datatype PromptText = PromptText(
    head: string,                // before the quoted crime
    prosecutionHeading: string,  // before the prosecution's excerpt
    defenseHeading: string,      // before the defense's excerpt
    questionsHeading: string,    // before the questions' excerpt
    provisionsHeading: string,   // before the context
    tail: string)                // after the context

  /** The text of `_construct_prompt`'s f-string. */
  const Prompt := PromptText(
    "\n"
    + "You are the **Judge Agent** in a mock courtroom simulation.\n"
    + "\n"
    + "Your task is to render a fair and legally sound verdict based on the evidence and arguments presented.\n"
    + "\n"
    + "Crime Description:\n",
    "\n\nProsecution Argument:\n",
    "\n\nDefense Argument:\n",
    "\n\nCross-Examination Questions:\n",
    "\n\nRelevant Legal Provisions:\n",
    "\n"
    + "\n"
    + "Based on the above, issue a clear verdict:\n"
    + "- Was the act committed?\n"
    + "- Which IPC/CrPC/Evidence Act provisions apply?\n"
    + "- What is the appropriate judgment?\n"
    + "\n"
    + "Cite specific sections and weigh both sides' arguments carefully.\n")

  /** The pieces of the prompt, in order. */
  function PromptParts(t: PromptText, p: Case, d: Case, x: CrossExaminerAgent.Examination, sections: seq<RetrievalResult>):
    seq<string>
  {
    [ t.head, Quoted(p.crimeDescription),
      t.prosecutionHeading, Excerpt(p.argument),
      t.defenseHeading, Excerpt(d.argument),
      t.questionsHeading, Excerpt(x.questions),
      t.provisionsHeading, Context(sections),
      t.tail ]
  }

  /** `_construct_prompt`, with the prompt's fixed text `t`. */
  function ConstructPrompt(t: PromptText, p: Case, d: Case, x: CrossExaminerAgent.Examination, sections: seq<RetrievalResult>):
    string
  {
    Concat(PromptParts(t, p, d, x, sections))
  }

  /** The request `_call_groq_api` sends for a prompt: the judge persona,
      the shared model, temperature 0.2 and at most 600 tokens. */
  function RequestFor(prompt: string): (r: Request)
    ensures r == Request("You are a respected Judge issuing a legally sound verdict.", prompt, "llama3-70b-8192", 0.2, 600)
  {
    Request(Persona, prompt, ModelName, Temperature, MaxTokens)
  }

  /** `_call_groq_api`. */
  function CallGroqApi(api: ChatApi, prompt: string): string {
    Complete(api(RequestFor(prompt)))
  }

  /** `render_verdict`: the summary input is the first 500 characters of the
      combined text. */
  function RenderVerdict(p: Case, d: Case, x: CrossExaminerAgent.Examination, search: Search, api: ChatApi): (v: Verdict)
    ensures v.role == "Judge"
    ensures v.summaryInput == CombineInputs(p, d, x)[..Min(|CombineInputs(p, d, x)|, SummaryInputLength)]
  {
    var combinedInput := CombineInputs(p, d, x);
    var ipcResults := search(Query("ipc", combinedInput, 2));
    var crpcResults := search(Query("crpc", "criminal procedure", 1));
    var evidenceResults := search(Query("evidence_act", "burden of proof", 1));
    var retrievedSections := ipcResults + crpcResults + evidenceResults;
    var prompt := ConstructPrompt(Prompt, p, d, x, retrievedSections);
    var response := CallGroqApi(api, prompt);
    Verdict("Judge", Take(combinedInput, SummaryInputLength), retrievedSections, response)
  }

  /** The summary input never exceeds 500 characters, is all of the combined
      text when that fits, and starts with the crime when the crime fits. */
  lemma SummaryInputBound(p: Case, d: Case, x: CrossExaminerAgent.Examination, search: Search, api: ChatApi)
    ensures var s := RenderVerdict(p, d, x, search, api).summaryInput;
      var combined := CombineInputs(p, d, x);
      && |s| <= SummaryInputLength
      && (|combined| <= SummaryInputLength ==> s == combined)
      && (|p.crimeDescription| <= SummaryInputLength ==> s[..|p.crimeDescription|] == p.crimeDescription)
  {
    var combined := CombineInputs(p, d, x);
    CombinedInputsLayout(p, d, x);
    assert combined[..|p.crimeDescription| + 3][..|p.crimeDescription|] == p.crimeDescription;
  }

  /** The retrieved sections are the results of the query table in order:
      the two penal-code sections nearest to the combined text, one
      procedure-code section on criminal procedure and one Evidence Act
      section on the burden of proof; never more than four, and only known
      stores queried. */
  lemma VerdictSections(p: Case, d: Case, x: CrossExaminerAgent.Examination, search: Search, api: ChatApi)
    ensures RenderVerdict(p, d, x, search, api).retrievedSections == Gather(search, Queries(CombineInputs(p, d, x)))
    ensures RespectsTopK(search) ==> |RenderVerdict(p, d, x, search, api).retrievedSections| <= 4
    ensures forall q :: q in Queries(CombineInputs(p, d, x)) ==> q.docType in Retriever.DocumentTypes
  {
    var combinedInput := CombineInputs(p, d, x);
    Retriever.KnownTypes();
    GatherThree(search, Query("ipc", combinedInput, 2), Query("crpc", "criminal procedure", 1), Query("evidence_act", "burden of proof", 1));
    if RespectsTopK(search) {
      GatherBound(search, Queries(combinedInput));
    }
  }

  /** The verdict is the model's completion of the one prompt built from
      exactly the sections returned: its reply, stripped, or the sentinel
      text carrying the exception's message. */
  lemma VerdictText(p: Case, d: Case, x: CrossExaminerAgent.Examination, search: Search, api: ChatApi)
    ensures var v := RenderVerdict(p, d, x, search, api);
      var outcome := api(RequestFor(ConstructPrompt(Prompt, p, d, x, v.retrievedSections)));
      && (outcome.Ok? ==> v.verdict == Strip(outcome.text) && NonSpace(v.verdict) == NonSpace(outcome.text))
      && (outcome.Err? ==> IsErrorReply(v.verdict) && ErrorMessage(v.verdict) == outcome.message)
  {
  }

  /** A failed call still yields a verdict record with the role, the
      summary input and the sections of a successful one, and the sentinel
      text as verdict. */
  lemma VerdictOnApiFailure(p: Case, d: Case, x: CrossExaminerAgent.Examination, search: Search, api: ChatApi, message: string)
    requires forall r: Request :: api(r) == Err(message)
    ensures var v := RenderVerdict(p, d, x, search, api);
      && v.role == "Judge"
      && v.summaryInput == Take(CombineInputs(p, d, x), SummaryInputLength)
      && v.retrievedSections == Gather(search, Queries(CombineInputs(p, d, x)))
      && v.verdict == ErrorPrefix + message
  {
    VerdictSections(p, d, x, search, api);
  }

  /** The prompt quotes the crime, then the excerpts of the prosecution's
      argument and of the defense's argument, in this order ... */
  lemma PromptLayout(t: PromptText, p: Case, d: Case, x: CrossExaminerAgent.Examination, sections: seq<RetrievalResult>)
    ensures var prompt, parts := ConstructPrompt(t, p, d, x, sections), PromptParts(t, p, d, x, sections);
      && OccursAt(prompt, Quoted(p.crimeDescription), PartStart(parts, 1))
      && OccursAt(prompt, Excerpt(p.argument), PartStart(parts, 3))
      && OccursAt(prompt, Excerpt(d.argument), PartStart(parts, 5))
      && PartStart(parts, 1) < PartStart(parts, 3) < PartStart(parts, 5)
  {
    var parts := PromptParts(t, p, d, x, sections);
    ExcerptSpec(p.argument, p.argument);
    ThreeParts(parts, 1, 3, 5);
  }

  /** ... then the excerpt of the questions, then the context. */
  lemma PromptLayoutEnd(t: PromptText, p: Case, d: Case, x: CrossExaminerAgent.Examination, sections: seq<RetrievalResult>)
    ensures var prompt, parts := ConstructPrompt(t, p, d, x, sections), PromptParts(t, p, d, x, sections);
      && OccursAt(prompt, Excerpt(x.questions), PartStart(parts, 7))
      && OccursAt(prompt, Context(sections), PartStart(parts, 9))
      && PartStart(parts, 5) < PartStart(parts, 7) < PartStart(parts, 9)
  {
    var parts := PromptParts(t, p, d, x, sections);
    ExcerptSpec(d.argument, d.argument);
    ExcerptSpec(x.questions, x.questions);
    ThreeParts(parts, 5, 7, 9);
  }

  /** Only the crime and the first 300 characters of each prior text reach
      the prompt. */
  lemma PromptSeesExcerpts(t: PromptText, p: Case, d: Case, x: CrossExaminerAgent.Examination, p': Case, d': Case, x': CrossExaminerAgent.Examination,
                                  sections: seq<RetrievalResult>)
    requires p.crimeDescription == p'.crimeDescription
    requires Take(p.argument, ExcerptLength) == Take(p'.argument, ExcerptLength)
    requires Take(d.argument, ExcerptLength) == Take(d'.argument, ExcerptLength)
    requires Take(x.questions, ExcerptLength) == Take(x'.questions, ExcerptLength)
    ensures ConstructPrompt(t, p, d, x, sections) == ConstructPrompt(t, p', d', x', sections)
  {
    assert PromptParts(t, p, d, x, sections) == PromptParts(t, p', d', x', sections);
  }
}
