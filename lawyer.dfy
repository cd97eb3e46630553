/** The two lawyer agents, `ProsecutionAgent` of
    backend/agents/prosecution_agent.py and `DefenseAgent` of
    backend/agents/defense_agent.py. Their code is the same apart from the
    constants a `Counsel` value collects: each retrieves the penal-code
    sections nearest to the alleged crime and one section of a second code
    for a fixed query, quotes them in its prompt, and returns the model's
    argument. */
module Lawyer {
  import opened PyText
  import opened Records
  import opened Courtroom
  import Retriever

  /** What sets one lawyer agent apart from the other. */
  datatype Counsel = Counsel(
    role: string,         // the case's "role"
    persona: string,      // the system message of `_call_groq_api`
    secondStore: string,  // the document type of the second retrieval
    secondQuery: string,  // its fixed query
    promptHead: string,   // the prompt before the quoted crime
    promptTail: string)   // the prompt after the context

  /** Both lawyers sample with these settings. */
  const Temperature: real := 0.3

  const MaxTokens: nat := 512

  /** The prompt text between the quoted crime and the context. */
  const ProvisionsHeading := "\n\nHere are relevant legal provisions:\n"

  /** The two retrievals of `build_case`, in the order their results are
      concatenated. */
  function Queries(counsel: Counsel, crimeDescription: string): seq<Query> {
    [Query("ipc", crimeDescription, 2), Query(counsel.secondStore, counsel.secondQuery, 1)]
  }

  /** `_construct_prompt`. */
  function ConstructPrompt(counsel: Counsel, crimeDescription: string, sections: seq<RetrievalResult>): string {
    counsel.promptHead + Quoted(crimeDescription) + ProvisionsHeading + Context(sections) + counsel.promptTail
  }

  /** The request `_call_groq_api` sends for a prompt. */
  function RequestFor(counsel: Counsel, prompt: string): Request {
    Request(counsel.persona, prompt, ModelName, Temperature, MaxTokens)
  }

  /** `_call_groq_api`. */
  function CallGroqApi(counsel: Counsel, api: ChatApi, prompt: string): string {
    Complete(api(RequestFor(counsel, prompt)))
  }

  /** `build_case`: the case keeps the crime description as given and
      carries the agent's role. */
  function BuildCase(counsel: Counsel, crimeDescription: string, search: Search, api: ChatApi): (c: Case)
    ensures c.role == counsel.role && c.crimeDescription == crimeDescription
  {
    var ipcResults := search(Query("ipc", crimeDescription, 2));
    var otherResults := search(Query(counsel.secondStore, counsel.secondQuery, 1));
    var prompt := ConstructPrompt(counsel, crimeDescription, ipcResults + otherResults);
    var response := CallGroqApi(counsel, api, prompt);
    Case(counsel.role, crimeDescription, ipcResults + otherResults, response)
  }

  /** The retrieved sections are the results of the query table in order:
      the crime's two nearest penal-code sections, then one section of the
      second code; never more than three. */
  lemma CaseSections(counsel: Counsel, crimeDescription: string, search: Search, api: ChatApi)
    ensures BuildCase(counsel, crimeDescription, search, api).retrievedSections == Gather(search, Queries(counsel, crimeDescription))
    ensures RespectsTopK(search) ==> |BuildCase(counsel, crimeDescription, search, api).retrievedSections| <= 3
  {
    GatherTwo(search, Query("ipc", crimeDescription, 2), Query(counsel.secondStore, counsel.secondQuery, 1));
    if RespectsTopK(search) {
      GatherBound(search, Queries(counsel, crimeDescription));
    }
  }

  /** The argument is the model's completion of the one prompt built from
      exactly the sections the case returns: its reply, stripped, or the
      sentinel text carrying the exception's message. */
  lemma CaseArgument(counsel: Counsel, crimeDescription: string, search: Search, api: ChatApi)
    ensures var c := BuildCase(counsel, crimeDescription, search, api);
      var outcome := api(RequestFor(counsel, ConstructPrompt(counsel, crimeDescription, c.retrievedSections)));
      && (outcome.Ok? ==> c.argument == Strip(outcome.text) && NonSpace(c.argument) == NonSpace(outcome.text))
      && (outcome.Err? ==> IsErrorReply(c.argument) && ErrorMessage(c.argument) == outcome.message)
  {
  }

  /** A failed call still yields a case: the role, the crime and the
      retrieved sections are as on success, and the argument is the
      sentinel text. */
  lemma CaseOnApiFailure(counsel: Counsel, crimeDescription: string, search: Search, api: ChatApi, message: string)
    requires forall r: Request :: api(r) == Err(message)
    ensures var c := BuildCase(counsel, crimeDescription, search, api);
      && c.role == counsel.role && c.crimeDescription == crimeDescription
      && c.retrievedSections == Gather(search, Queries(counsel, crimeDescription))
      && c.argument == ErrorPrefix + message
  {
    CaseSections(counsel, crimeDescription, search, api);
  }

  /** The case depends on the model only through the one request sent. */
  lemma CaseDependsOnRequest(counsel: Counsel, crimeDescription: string, search: Search, api1: ChatApi, api2: ChatApi)
    requires var sections := BuildCase(counsel, crimeDescription, search, api1).retrievedSections;
      var request := RequestFor(counsel, ConstructPrompt(counsel, crimeDescription, sections));
      api1(request) == api2(request)
    ensures BuildCase(counsel, crimeDescription, search, api1) == BuildCase(counsel, crimeDescription, search, api2)
  {
  }

  /** Where the context starts in the prompt. */
  function ContextStart(counsel: Counsel, crimeDescription: string): nat {
    |counsel.promptHead| + |Quoted(crimeDescription)| + |ProvisionsHeading|
  }

  /** The prompt quotes the crime verbatim right after its head, then shows
      the context. */
  lemma PromptLayout(counsel: Counsel, crimeDescription: string, sections: seq<RetrievalResult>)
    ensures OccursAt(ConstructPrompt(counsel, crimeDescription, sections), Quoted(crimeDescription), |counsel.promptHead|)
    ensures OccursAt(ConstructPrompt(counsel, crimeDescription, sections), Context(sections), ContextStart(counsel, crimeDescription))
  {
    FiveParts(counsel.promptHead, Quoted(crimeDescription), ProvisionsHeading, Context(sections), counsel.promptTail);
  }

  /** Every retrieved section's block appears in the prompt at its offset in
      the context; offsets grow with the position in the list
      (`BlockOffsetNext`), so the blocks keep the retrieval order. */
  lemma PromptShowsSection(counsel: Counsel, crimeDescription: string, sections: seq<RetrievalResult>, i: nat)
    requires i < |sections|
    ensures OccursAt(ConstructPrompt(counsel, crimeDescription, sections), FormatSection(sections[i]),
      ContextStart(counsel, crimeDescription) + BlockOffset(sections, i))
  {
    BlockInFrame(counsel.promptHead + Quoted(crimeDescription) + ProvisionsHeading, sections, counsel.promptTail, i);
  }

  /** A lawyer whose second store is a known document type queries only
      known stores, so no retriever construction raises `KeyError`. */
  lemma QueriesUseKnownTypes(counsel: Counsel, crimeDescription: string)
    requires counsel.secondStore in Retriever.DocumentTypes
    ensures forall q :: q in Queries(counsel, crimeDescription) ==>
      Retriever.IndexPath(q.docType).Ok? && Retriever.SectionsPath(q.docType).Ok?
  {
  }
}
