/** The constants of `DefenseAgent` in
    backend/agents/defense_agent.py; its behaviour is `Lawyer`'s. */
module DefenseAgent {
  import opened Records
  import opened Courtroom
  import opened Lawyer
  import Retriever

  const Defense := Counsel(
    "Defense",
    "You are a skilled Defense Lawyer assisting in a mock courtroom simulation.",
    "evidence_act",
    "exceptions to admissibility",
    "\n"
    + "You are the **Defense Agent** in a mock courtroom simulation. "
    + "Your task is to construct a compelling defense based on the Indian Penal Code (IPC), "
    + "Indian Evidence Act, and other applicable laws.\n"
    + "\n"
    + "Given the alleged crime: ",
    "\n"
    + "\n"
    + "Based on this information:\n"
    + "1. Identify possible defenses or mitigating circumstances\n"
    + "2. Challenge the applicability of certain charges\n"
    + "3. Present a concise but persuasive defense narrative\n"
    + "\n"
    + "Ensure your argument clearly references section numbers and legal definitions.\n")

  /** The defense's case: role "Defense", the crime's two nearest
      penal-code sections followed by one Evidence Act section for
      "exceptions to admissibility", at most three in all, and only known
      stores queried. */
  lemma DefenseCase(crimeDescription: string, search: Search, api: ChatApi)
    ensures var c := BuildCase(Defense, crimeDescription, search, api);
      && c.role == "Defense"
      && c.retrievedSections == search(Query("ipc", crimeDescription, 2)) + search(Query("evidence_act", "exceptions to admissibility", 1))
      && (RespectsTopK(search) ==> |c.retrievedSections| <= 3)
      && forall q :: q in Queries(Defense, crimeDescription) ==> q.docType in Retriever.DocumentTypes
  {
    CaseSections(Defense, crimeDescription, search, api);
  }

  /** The request carries the defense persona, the shared model and the
      defense's sampling settings. */
  lemma DefenseRequest(prompt: string)
    ensures RequestFor(Defense, prompt) ==
      Request("You are a skilled Defense Lawyer assisting in a mock courtroom simulation.", prompt, "llama3-70b-8192", 0.3, 512)
  {
  }
}
