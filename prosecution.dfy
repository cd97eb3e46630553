/** The constants of `ProsecutionAgent` in
    backend/agents/prosecution_agent.py; its behaviour is `Lawyer`'s. */
module ProsecutionAgent {
  import opened Records
  import opened Courtroom
  import opened Lawyer
  import Retriever

  const Prosecution := Counsel(
    "Prosecution",
    "You are a skilled Prosecution Lawyer assisting in a mock courtroom simulation.",
    "crpc",
    "arrest and procedure",
    "\n"
    + "You are the **Prosecution Agent** in a mock courtroom simulation. "
    + "Your task is to construct a compelling legal argument based on the Indian Penal Code (IPC), "
    + "Code of Criminal Procedure (CrPC), and other applicable laws.\n"
    + "\n"
    + "Given the alleged crime: ",
    "\n"
    + "\n"
    + "Based on this information:\n"
    + "1. Identify the most applicable offense(s)\n"
    + "2. Cite supporting IPC, CrPC, or procedural provisions\n"
    + "3. Present a concise but persuasive prosecution narrative\n"
    + "\n"
    + "Ensure your argument clearly references section numbers and legal definitions.\n")

  /** The prosecution's case: role "Prosecution", the crime's two nearest
      penal-code sections followed by one procedure-code section for
      "arrest and procedure", at most three in all, and only known stores
      queried. */
  lemma ProsecutionCase(crimeDescription: string, search: Search, api: ChatApi)
    ensures var c := BuildCase(Prosecution, crimeDescription, search, api);
      && c.role == "Prosecution"
      && c.retrievedSections == search(Query("ipc", crimeDescription, 2)) + search(Query("crpc", "arrest and procedure", 1))
      && (RespectsTopK(search) ==> |c.retrievedSections| <= 3)
      && forall q :: q in Queries(Prosecution, crimeDescription) ==> q.docType in Retriever.DocumentTypes
  {
    CaseSections(Prosecution, crimeDescription, search, api);
  }

  /** The request carries the prosecution persona, the shared model and the
      prosecution's sampling settings. */
  lemma ProsecutionRequest(prompt: string)
    ensures RequestFor(Prosecution, prompt) ==
      Request("You are a skilled Prosecution Lawyer assisting in a mock courtroom simulation.", prompt, "llama3-70b-8192", 0.3, 512)
  {
  }
}
