/** `CrossExaminerAgent` of backend/agents/cross_examiner_agent.py: combine
    the two cases into one search text, retrieve one penal-code and one
    Evidence Act section for it, quote both arguments in the prompt, and
    return the model's questions. */
module CrossExaminerAgent {
  import opened PyText
  import opened Records
  import opened Courtroom
  import Retriever

  const Role := "Cross-Examiner"

  /** The system message of `_call_groq_api`. */
  const Persona := "You are an experienced Cross-Examiner in a legal trial."

  const Temperature: real := 0.5

  const MaxTokens: nat := 400

  /** The summaries repeat this many characters of each argument. */
  const SummaryLength := 300

  /** The combined search text uses this many characters of each argument. */
  const ArgumentCut := 200

  /** The dictionary `examine` returns. */
  datatype Examination = Examination(
    role: string,
    prosecutionSummary: string,
    defenseSummary: string,
    retrievedSections: seq<RetrievalResult>,
    questions: string)

  /** `_combine_arguments`. */
  function CombineArguments(p: Case, d: Case): string {
    "Prosecution: " + p.crimeDescription + " - " + Take(p.argument, ArgumentCut) + " | Defense: " + Take(d.argument, ArgumentCut)
  }

  /** The combined text names the crime, then the start of each argument:
      the prosecution's right after the crime, the defense's at the end;
      its length follows from the three parts. */
  lemma CombinedArgumentsLayout(p: Case, d: Case)
    ensures var r := CombineArguments(p, d);
      var pa, da := p.argument[..Min(|p.argument|, ArgumentCut)], d.argument[..Min(|d.argument|, ArgumentCut)];
      && |r| == |p.crimeDescription| + |pa| + |da| + 28
      && r[..13] == "Prosecution: "
      && OccursAt(r, p.crimeDescription, 13)
      && OccursAt(r, pa, 16 + |p.crimeDescription|)
      && r[|r| - |da|..] == da
  {
    SixParts("Prosecution: ", p.crimeDescription, " - ", Take(p.argument, ArgumentCut), " | Defense: ", Take(d.argument, ArgumentCut));
  }

  /** Only the first 200 characters of each argument reach the search
      text. */
  lemma CombinedArgumentsSeePrefixes(p: Case, d: Case, p': Case, d': Case)
    requires p.crimeDescription == p'.crimeDescription
    requires Take(p.argument, ArgumentCut) == Take(p'.argument, ArgumentCut)
    requires Take(d.argument, ArgumentCut) == Take(d'.argument, ArgumentCut)
    ensures CombineArguments(p, d) == CombineArguments(p', d')
  {
  }

  /** The two retrievals of `examine`, both for the combined text, in the
      order their results are concatenated. */
  function Queries(combinedInput: string): seq<Query> {
    [Query("ipc", combinedInput, 1), Query("evidence_act", combinedInput, 1)]
  }

  /** The fixed text of the prompt, around the quoted inputs. */
  datatype PromptText = PromptText(
    head: string,               // before the prosecution's excerpt
    defenseHeading: string,     // before the defense's excerpt
    provisionsHeading: string,  // before the context
    tail: string)               // after the context

  /** The text of `_construct_prompt`'s f-string. */
  const Prompt := PromptText(
    "\n"
    + "You are the **Cross-Examiner Agent** in a mock courtroom simulation.\n"
    + "\n"
    + "Your task is to critically analyze the arguments from both sides and generate targeted questions "
    + "that challenge inconsistencies, assumptions, or legal misinterpretations.\n"
    + "\n"
    + "Prosecution Argument Summary:\n",
    "\n\nDefense Argument Summary:\n",
    "\n\nRelevant Legal Provisions:\n",
    "\n"
    + "\n"
    + "Generate 3\U{2013}4 focused questions that test the strength of each side's case.\n"
    + "Focus on areas where the facts or law may be unclear, disputed, or incomplete.\n")

  /** The pieces of the prompt, in order. */
  function PromptParts(t: PromptText, p: Case, d: Case, sections: seq<RetrievalResult>): seq<string> {
    [t.head, Excerpt(p.argument), t.defenseHeading, Excerpt(d.argument), t.provisionsHeading, Context(sections), t.tail]
  }

  /** `_construct_prompt`, with the prompt's fixed text `t`. */
  function ConstructPrompt(t: PromptText, p: Case, d: Case, sections: seq<RetrievalResult>): string {
    Concat(PromptParts(t, p, d, sections))
  }

  /** The request `_call_groq_api` sends for a prompt: the cross-examiner
      persona, the shared model, temperature 0.5 and at most 400 tokens. */
  function RequestFor(prompt: string): (r: Request)
    ensures r == Request("You are an experienced Cross-Examiner in a legal trial.", prompt, "llama3-70b-8192", 0.5, 400)
  {
    Request(Persona, prompt, ModelName, Temperature, MaxTokens)
  }

  /** `_call_groq_api`. */
  function CallGroqApi(api: ChatApi, prompt: string): string {
    Complete(api(RequestFor(prompt)))
  }

  /** `examine`: the summaries are the first 300 characters of each
      argument. */
  function Examine(p: Case, d: Case, search: Search, api: ChatApi): (e: Examination)
    ensures e.role == Role
    ensures e.prosecutionSummary == p.argument[..Min(|p.argument|, SummaryLength)]
    ensures e.defenseSummary == d.argument[..Min(|d.argument|, SummaryLength)]
  {
    var combinedInput := CombineArguments(p, d);
    var ipcResults := search(Query("ipc", combinedInput, 1));
    var evidenceResults := search(Query("evidence_act", combinedInput, 1));
    var retrievedSections := ipcResults + evidenceResults;
    var prompt := ConstructPrompt(Prompt, p, d, retrievedSections);
    var response := CallGroqApi(api, prompt);
    Examination(Role, Take(p.argument, SummaryLength), Take(d.argument, SummaryLength), retrievedSections, response)
  }

  /** The retrieved sections are the results of the query table in order:
      the one penal-code and the one Evidence Act section nearest to the
      combined text; never more than two, and only known stores queried. */
  lemma ExaminationSections(p: Case, d: Case, search: Search, api: ChatApi)
    ensures Examine(p, d, search, api).retrievedSections == Gather(search, Queries(CombineArguments(p, d)))
    ensures RespectsTopK(search) ==> |Examine(p, d, search, api).retrievedSections| <= 2
    ensures forall q :: q in Queries(CombineArguments(p, d)) ==>
      q.docType in Retriever.DocumentTypes && q.text == CombineArguments(p, d) && q.topK == 1
  {
    var combinedInput := CombineArguments(p, d);
    GatherTwo(search, Query("ipc", combinedInput, 1), Query("evidence_act", combinedInput, 1));
    if RespectsTopK(search) {
      GatherBound(search, Queries(combinedInput));
    }
  }

  /** The questions are the model's completion of the one prompt built from
      exactly the sections returned: its reply, stripped, or the sentinel
      text carrying the exception's message. */
  lemma ExaminationQuestions(p: Case, d: Case, search: Search, api: ChatApi)
    ensures var e := Examine(p, d, search, api);
      var outcome := api(RequestFor(ConstructPrompt(Prompt, p, d, e.retrievedSections)));
      && (outcome.Ok? ==> e.questions == Strip(outcome.text) && NonSpace(e.questions) == NonSpace(outcome.text))
      && (outcome.Err? ==> IsErrorReply(e.questions) && ErrorMessage(e.questions) == outcome.message)
  {
  }

  /** A failed call still yields an examination with the role, the
      summaries and the sections of a successful one, and the sentinel text
      as questions. */
  lemma ExaminationOnApiFailure(p: Case, d: Case, search: Search, api: ChatApi, message: string)
    requires forall r: Request :: api(r) == Err(message)
    ensures var e := Examine(p, d, search, api);
      && e.role == Role
      && e.prosecutionSummary == Take(p.argument, SummaryLength)
      && e.defenseSummary == Take(d.argument, SummaryLength)
      && e.retrievedSections == Gather(search, Queries(CombineArguments(p, d)))
      && e.questions == ErrorPrefix + message
  {
    ExaminationSections(p, d, search, api);
  }

  /** The prompt quotes the prosecution's excerpt, then the defense's,
      then shows the context, in this order. */
  lemma PromptLayout(t: PromptText, p: Case, d: Case, sections: seq<RetrievalResult>)
    ensures var prompt, parts := ConstructPrompt(t, p, d, sections), PromptParts(t, p, d, sections);
      && OccursAt(prompt, Excerpt(p.argument), PartStart(parts, 1))
      && OccursAt(prompt, Excerpt(d.argument), PartStart(parts, 3))
      && OccursAt(prompt, Context(sections), PartStart(parts, 5))
      && PartStart(parts, 1) < PartStart(parts, 3) < PartStart(parts, 5)
  {
    var parts := PromptParts(t, p, d, sections);
    ExcerptSpec(p.argument, p.argument);
    ExcerptSpec(d.argument, d.argument);
    ThreeParts(parts, 1, 3, 5);
  }

  /** Only the first 300 characters of each argument reach the prompt. */
  lemma PromptSeesExcerpts(t: PromptText, p: Case, d: Case, p': Case, d': Case, sections: seq<RetrievalResult>)
    requires Take(p.argument, SummaryLength) == Take(p'.argument, SummaryLength)
    requires Take(d.argument, SummaryLength) == Take(d'.argument, SummaryLength)
    ensures ConstructPrompt(t, p, d, sections) == ConstructPrompt(t, p', d', sections)
  {
    assert PromptParts(t, p, d, sections) == PromptParts(t, p', d', sections);
  }
}
