# Lega courtroom core in Dafny

Lega is a mock-courtroom demo. Statute texts (the Indian Penal Code, the Code
of Criminal Procedure and the Indian Evidence Act) are cut into sections and
indexed for nearest-neighbour search. Four agents then play a trial in turn:
prosecution, defense, cross-examiner and judge. Each agent retrieves a few
sections, builds a prompt around them and asks a chat model for its text.

This project models the deterministic logic between the search and chat
calls, and proves what it does:

- **`PyText`** (`text.dfy`): the Python `str` built-ins the code relies on,
  over `seq<char>`:
  - `s[:n]` for any integer `n`;
  - `isspace`, `strip`, `split()` as `Words`, `upper`, `find`, `sep.join`, and `"".join` as
    `Concat`.
- **`Helpers`** (`helpers.dfy`): `backend/utils/helpers.py`. Covers
  whitespace normalisation, truncation with an ellipsis, and the two
  citation formats.
- **`Records`** (`records.dfy`): the section record and the retrieval result.
- **`Retriever`** (`retriever.dfy`): `LegalRetriever` of
  `backend/retriever.py`.
  - The two document-type path tables.
  - Construction against a modelled file system.
  - The post-search loop of `retrieve`, as a method over the search output,
    proved equal to the specification function `Hits`.
  - Python indexing is explicit. A slot index `idx` raises `IndexError`,
    and is dropped, only when `idx >= len` or `idx < -len`. A negative
    in-range index, such as the index's `-1` filler, selects
    `sections[len + idx]`.
- **`SectionPattern`** and **`SectionSplit`** (`patterns.dfy`,
  `split.dfy`): the three regular expressions of `backend/ingest.py` as
  character predicates, and `re.split` at a zero-width lookahead.
- **`Ingest`** (`ingest.dfy`): the text-splitting and record-building part of
  `extract_sections`.
  - It is a method that splits the text, drops (pops) a blank first piece
    and runs the record loop.
  - It is proved against the specification function
    `PieceRecords(RawSections(fullText))`.
- **`Courtroom`** (`courtroom.dfy`): what the agents share.
  - The chat-call outcome `Ok(text) | Err(message)` and the error sentinel
    of `_call_groq_api`.
  - The retrieval queries and the concatenation of their results.
  - The `"\n\n"`-joined context of formatted sections, and the 300-character
    excerpts the prompts quote.
- **`Lawyer`**, **`ProsecutionAgent`**, **`DefenseAgent`** (`lawyer.dfy`,
  `prosecution.dfy`, `defense.dfy`): the prosecution and defense agents.
  - Their code is identical up to constants.
  - `Lawyer` states `build_case` once over a `Counsel` value holding those
    constants.
  - Each agent module fixes its `Counsel` and proves the concrete queries,
    roles and request settings.
- **`CrossExaminerAgent`**, **`JudgeAgent`** (`cross_examiner.dfy`,
  `judge.dfy`): `examine` and `render_verdict`, with their combined search
  texts, summaries and prompts.

The retriever's search and the chat model are parameters. `Search` is a
function from a query (document type, text, `top_k`) to the results, and
`ChatApi` is a function from the whole request (system message, prompt,
model, temperature, token limit) to an `ApiOutcome`. Every agent property
holds for every such function. Where the property needs `retrieve`'s promise
of at most `top_k` results, it is assumed explicitly as `RespectsTopK`.

The prompt functions of the cross-examiner and the judge take the fixed
prompt text as a parameter `t`. The agents apply them to the exact text of
the source's f-string (`CrossExaminerAgent.Prompt`, `JudgeAgent.Prompt`).
The layout lemmas hold for any `t`.

Two behaviours of the code are easy to misread, and the model follows the
code in both:
- `retrieve` drops a slot only when its index raises `IndexError`, not every
  slot that is out of the index's bounds. The `-1` filler that the index
  returns when it has fewer than `top_k` vectors selects the last section
  (see `Retriever.FillerSlotSelectsLast`).
- The role's persona is in the system message of the chat request, and the
  prompt only carries a role line. Both are modelled: `RequestFor` and the
  prompt texts.

A successful reply that itself starts with the error sentinel reads like a
failure: `Courtroom.ReplyLooksLikeError` states exactly when the two texts
coincide.

## Model

| member | source | states |
|---|---|---|
| Helpers.CleanText | backend/utils/helpers.py:6-8 | the result is `" ".join(text.split())`: the input's words in order with one `' '` between two of them; so it has no whitespace at either end, no two whitespace characters adjacent, and the input's non-whitespace characters |
| Helpers.CollapseSpaces | backend/utils/helpers.py:8 | `re.sub(r'\s+', ' ', s)` leaves single-spaced text, keeps the non-whitespace characters, is empty only for empty input, and starts with a space exactly when the input starts with whitespace |
| Helpers.CollapseSpacesWords | backend/utils/helpers.py:8 | the substitution keeps the input's words (`split()`), so with single spacing one `' '` stands between two consecutive words exactly where whitespace separates them in the input |
| Helpers.CollapseSpacesEnd | backend/utils/helpers.py:8 | the result ends with a space exactly when the input ends with whitespace |
| Helpers.SingleSpacedWords | backend/utils/helpers.py:8 | a trimmed, single-spaced text equals its own words joined by `' '` |
| PyText.Words | backend/utils/helpers.py:8 | `str.split()` with no separator: the maximal runs of non-whitespace characters, in order (reference definition for `clean_text`; its properties are the next three rows) |
| PyText.WordsAreWords | backend/utils/helpers.py:8 | every item of `split()` is a non-empty run without whitespace, and the items concatenate to the text's non-whitespace characters |
| PyText.WordsStrip | backend/utils/helpers.py:8 | `strip()` does not change the words |
| PyText.WordsCons | backend/utils/helpers.py:8 | a non-whitespace character in front of a text lengthens its first word when that text starts with one, and is a word of its own otherwise |
| Helpers.CleanTextIdempotent | backend/utils/helpers.py:8 | cleaning cleaned text changes nothing |
| Helpers.CollapseFixesSingleSpaced | backend/utils/helpers.py:8 | collapsing whitespace runs is the identity on text that is already single-spaced |
| Helpers.TruncateText | backend/utils/helpers.py:11-13 | text no longer than the limit comes back unchanged; longer text becomes `text[:max_length] + "..."`, exactly `max_length + 3` long for a non-negative limit; the result always starts with `text[:max_length]` |
| Helpers.TruncateTextIdempotent | backend/utils/helpers.py:13 | for a non-negative limit, truncating twice equals truncating once |
| Helpers.TruncateTextNegativeLimit | backend/utils/helpers.py:13 | with a negative limit Python's slice counts from the end (`"ab"`, -1 gives `"a..."`), and truncating again grows the text, so idempotence needs a non-negative limit |
| Helpers.FormatLegalCitation | backend/utils/helpers.py:21-23 | the citation is the doc type, then `" Section " + id + ": "`, then the title, with length equal to the sum of the three plus 11 |
| Helpers.FormatIpcCitation | backend/utils/helpers.py:16-18 | the IPC citation is the legal citation of the same section with doc type `"IPC"` |
| Helpers.IpcCitationIsLegalCitation | backend/utils/helpers.py:16-23 | for a hit whose doc type is `"IPC"`, both formats give the same text |
| Retriever.IndexPath | backend/retriever.py:38-44 | succeeds exactly for `"ipc"`, `"crpc"` and `"evidence_act"`; any other type fails with `KeyError` of that type |
| Retriever.SectionsPath | backend/retriever.py:46-52 | the same keys for the sections table, with the same `KeyError` |
| Retriever.PathTables | backend/retriever.py:38-52 | the six paths are `data/vectorstore/<type>_vectorstore.faiss` and `data/processed/<type>_sections.json` |
| Retriever.PathsAreDistinct | backend/retriever.py:38-52 | distinct known types have distinct index paths and distinct section paths, and no index path is a sections path |
| Retriever.Open | backend/retriever.py:11-36 | an unknown type raises `KeyError`; a missing index raises the "Vector store not found at" error before the sections file is checked; a missing sections file raises "Sections JSON not found at"; construction succeeds exactly when both files exist and are readable, and the retriever then holds the sections file's records |
| Retriever.PyIndex | backend/retriever.py:68 | `sections[idx]` for an index that does not raise: the element at `idx` modulo the length, so a negative index counts from the end |
| Retriever.Hits | backend/retriever.py:62-79 | the result list of `retrieve` as a function of the search output; specified by `Retrieve`, `KeptSlotsSpec`, `HitsAreKeptSlots` and `HitsBound` |
| Retriever.Hit | backend/retriever.py:69-75 | the dictionary one slot yields; specified by `HitFields` |
| Retriever.ShortContent | backend/retriever.py:73 | the 500-character display cut; specified by `ShortContentIsTruncation` |
| Retriever.Retrieve | backend/retriever.py:62-79 | the loop's result list equals `Hits` of the search output: one result per slot whose index does not raise `IndexError`, in slot order |
| Retriever.KeptSlotsSpec | backend/retriever.py:63-77 | the kept slots are strictly increasing slot positions, and a slot is kept exactly when `-len(sections) <= idx < len(sections)` |
| Retriever.HitsAreKeptSlots | backend/retriever.py:63-75 | the j-th result is built from the j-th kept slot's section (indexed the Python way) and that slot's distance; nothing is reordered |
| Retriever.HitsBound | backend/retriever.py:60-79 | there are never more results than search slots, and so never more than `top_k` when the search returns at most `top_k` slots |
| Retriever.HitsAllInRange | backend/retriever.py:67-77 | when no slot index raises, every slot yields a result |
| Retriever.FillerSlotSelectsLast | backend/retriever.py:68 | a `-1` slot yields the last section when there are sections, and nothing when there are none |
| Retriever.OneSlot | backend/retriever.py:67-77 | a single slot yields one result exactly when `-len <= idx < len` |
| Retriever.ShortContentIsTruncation | backend/retriever.py:73 | result content is `truncate_text(content, 500)`: unchanged up to 500 characters, otherwise `content[:500] + "..."` of length 503 |
| Retriever.HitFields | backend/retriever.py:69-75 | a result copies the section id, the title and the distance unchanged, and its doc type is `Upper` of the type: as long as the type, with no lower-case letter left |
| Retriever.DocTypeTags | backend/retriever.py:70 | the three types upper-case to `"IPC"`, `"CRPC"` and `"EVIDENCE_ACT"` |
| PyText.Take | backend/utils/helpers.py:13 | Python `s[:n]`: a prefix of `s`, of length `min(n, len)` for `n >= 0` and `max(0, len + n)` otherwise |
| PyText.Upper | backend/retriever.py:70 | same length as the input, each character upper-cased |
| PyText.Find | backend/ingest.py:42 | `s.find(c)` is -1 exactly when `c` does not occur, and otherwise the first position of `c` |
| PyText.Strip | backend/ingest.py:43-44 | `strip()` leaves no whitespace at either end, and is empty exactly for whitespace-only text |
| PyText.StripInfix | backend/ingest.py:43-44 | `strip()` returns a slice of the text whose cut-off prefix and suffix are whitespace-only |
| PyText.StripKeepsNonSpace | backend/ingest.py:44 | stripping removes only whitespace |
| PyText.JoinItem | backend/agents/prosecution_agent.py:40-43 | every item of a join occurs in the joined text at its offset |
| PyText.JoinOffsetNext | backend/agents/prosecution_agent.py:40-43 | consecutive items are one item and one separator apart |
| SectionPattern.SkipSpaces | backend/ingest.py:36-41 | the end of a `\s*` run: everything skipped is whitespace, and what follows is not |
| SectionPattern.DigitRunEnd | backend/ingest.py:36 | the end of a `\d+` run: everything skipped is a digit, and what follows is not |
| SectionPattern.SpacesThenDigitSpec | backend/ingest.py:9-36 | `\s+\d` matches at `i` iff skipping whitespace from `i` moves at least one character and stops at a digit |
| SectionPattern.HeadingAtSpec | backend/ingest.py:9-36 | `section\s+\d` (ASCII case-insensitive) matches at `p` iff the keyword is there and its number starts after at least one whitespace character |
| SectionPattern.FirstHeading | backend/ingest.py:36 | `re.search` finds the leftmost match of `section\s+\d`, or reports that there is none at any position |
| SectionPattern.SplitPointsExactly | backend/ingest.py:9-30 | a position is a split point exactly when the lookahead `\bsection\s+\d+` matches there |
| SectionPattern.SplitPointSound | backend/ingest.py:9-30 | every computed split point is a lookahead match |
| SectionPattern.SplitPointComplete | backend/ingest.py:9-30 | every lookahead match is a computed split point |
| SectionPattern.FindPunct | backend/ingest.py:41 | the position of the first `:` or `.`, or none when the piece has neither |
| SectionPattern.StripSkippedSpaces | backend/ingest.py:41-43 | whitespace the title regex consumes after the punctuation is removed again by `strip()` |
| SectionPattern.NoHeadingInsideHeading | backend/ingest.py:9 | two headings cannot overlap before the first one's number |
| SectionSplit.CutFromConcat | backend/ingest.py:30 | the pieces cut at increasing positions concatenate to the cut text |
| SectionSplit.SplitRoundTrip | backend/ingest.py:30 | concatenating `re.split`'s pieces reproduces `full_text` exactly |
| SectionSplit.SplitPiece | backend/ingest.py:30 | each piece is the text between consecutive split points |
| SectionSplit.SplitPiecesStartWithHeading | backend/ingest.py:9-30 | every piece after the first starts with `section`, whitespace and a digit, and the previous piece ends in a non-word character, or is the empty first piece |
| SectionSplit.SplitMissesNoHeading | backend/ingest.py:9-30 | a heading inside a piece, other than at a later piece's start, follows a word character, so the `\b` lookahead rightly did not cut there |
| SectionSplit.NoCutInsidePiece | backend/ingest.py:30 | no split point lies strictly inside a piece |
| SectionSplit.SplitSections | backend/ingest.py:30 | `re.split` at the heading lookahead, with at least one piece; specified by `SplitRoundTrip`, `SplitPiece`, `SplitPiecesStartWithHeading` and `SplitMissesNoHeading` |
| Ingest.RawSections | backend/ingest.py:30-32 | the kept pieces are a suffix of the split's pieces, shorter by one exactly when the first piece is whitespace-only, and no kept piece is blank |
| Ingest.RawSectionsRoundTrip | backend/ingest.py:30-32 | the kept pieces concatenate to `full_text` minus a whitespace-only prefix |
| Ingest.ParsePieceSome | backend/ingest.py:36-38 | a piece yields a record exactly when `section\s+\d` matches within its first 150 characters |
| Ingest.SectionIdSpec | backend/ingest.py:36-40 | the id is the non-empty, maximal digit run of the leftmost match in the first 150 characters |
| Ingest.HeadPieceId | backend/ingest.py:36-40 | a piece that starts with a heading whose number ends within 150 characters gets that number as its id |
| Ingest.ParsePiece | backend/ingest.py:36-50 | one loop iteration: no record without a heading in the first 150 characters, otherwise the id, the title and the stripped piece; specified by `ParsePieceSome`, `SectionIdSpec` and `HeadPieceId` |
| Ingest.SectionIdOf | backend/ingest.py:36-40 | `group(1)` of the heading search in `sec[:150]`; specified by `SectionIdSpec` |
| Ingest.Title | backend/ingest.py:41-43 | `sec[:title_end_idx].strip()`; specified by `TitleAtPunct` and `TitleWithoutBreaks` |
| Ingest.TitleEnd | backend/ingest.py:41-42 | the end of the `[:\.]\s*\n?` match or `sec.find("\n")`; specified by `TitleAtPunct` and `TitleWithoutBreaks` |
| Ingest.TitleAtPunct | backend/ingest.py:41-43 | with a `:` or `.` in the piece, the title is the stripped text through the first of them |
| Ingest.TitleWithoutBreaks | backend/ingest.py:42-43 | with no punctuation and no newline, `find` gives -1 and the title is the piece without its last character, stripped |
| Ingest.PieceRecords | backend/ingest.py:34-50 | the loop yields at most one record per piece |
| Ingest.RecordsAppend | backend/ingest.py:35-50 | records keep the pieces' order: the records of `a + b` are those of `a`, then those of `b` |
| Ingest.RecordsAround | backend/ingest.py:35-50 | the records are those before a piece, then that piece's record if it parses, then those after |
| Ingest.ExtractSections | backend/ingest.py:30-50 | the split, the pop of a blank first piece, and the loop yield `PieceRecords(RawSections(full_text))` |
| Ingest.CollectRecords | backend/ingest.py:34-50 | the `for sec in raw_sections` loop with `continue` and `append` yields `PieceRecords(raw_sections)` |
| Courtroom.Complete | backend/agents/prosecution_agent.py:63-76 | a reply comes back trimmed with its non-whitespace characters intact; a failure becomes the sentinel text carrying the exception's message |
| Courtroom.ReplyIsTrimmedSlice | backend/agents/prosecution_agent.py:74 | a reply is `content.strip()`: the reply minus whitespace-only ends |
| Courtroom.ReplyLooksLikeError | backend/agents/prosecution_agent.py:74-76 | the text for a reply equals the text for an exception exactly when the stripped reply starts with the sentinel and carries that exception's message |
| Courtroom.Gather | backend/agents/judge_agent.py:30-34 | the `+` of the query results in query order; specified by `GatherTwo`, `GatherThree` and `GatherBound` |
| Courtroom.FormatSection | backend/agents/prosecution_agent.py:41 | one section's block; specified by `FormatSectionSplit` |
| Courtroom.Context | backend/agents/prosecution_agent.py:40-43 | the `"\n\n"`-join of the blocks; specified by `ContextShort`, `ContextAppend`, `ContextBlocks` and `BlockOffsetNext` |
| Courtroom.Excerpt | backend/agents/cross_examiner_agent.py:60-63 | a quoted 300-character excerpt; specified by `ExcerptSpec` |
| Courtroom.GatherBound | backend/agents/judge_agent.py:30-34 | concatenated results number at most the sum of the queries' `top_k` when each retrieval respects its `top_k` |
| Courtroom.GatherTwo | backend/agents/prosecution_agent.py:29 | two queries' results, in query order |
| Courtroom.GatherThree | backend/agents/judge_agent.py:34 | three queries' results, in query order |
| Courtroom.FormatSectionSplit | backend/agents/prosecution_agent.py:41 | a section's block is its header line `[doc_type Section id]: title`, a newline, then its content unchanged |
| Courtroom.ContextShort | backend/agents/prosecution_agent.py:40-43 | no sections give an empty context, and one section gives its block |
| Courtroom.ContextAppend | backend/agents/prosecution_agent.py:40-43 | the context of `a + b` is that of `a`, `"\n\n"`, that of `b` |
| Courtroom.ContextBlocks | backend/agents/prosecution_agent.py:40-43 | every section's block occurs in the context at its offset, in section order |
| Courtroom.BlockOffsetNext | backend/agents/prosecution_agent.py:40-43 | consecutive blocks are separated by exactly `"\n\n"` |
| Courtroom.ExcerptSpec | backend/agents/cross_examiner_agent.py:60-63 | an excerpt is `"` + the first 300 characters + `..."` whatever the length, and two texts give the same excerpt exactly when their first 300 characters agree |
| Courtroom.ConcatPart | backend/agents/judge_agent.py:55-81 | each part of an assembled prompt occurs at its start, and the parts follow one another without gaps |
| Courtroom.ThreeParts | backend/agents/judge_agent.py:55-81 | three parts, the first two non-empty, occur in the prompt at strictly increasing starts |
| Lawyer.BuildCase | backend/agents/prosecution_agent.py:18-37 | the case keeps the crime description as given and carries the agent's role |
| Lawyer.CaseSections | backend/agents/prosecution_agent.py:26-35 | the retrieved sections are the IPC results followed by the second store's results, and are the list handed to the prompt; at most three when each retrieval respects `top_k` |
| Lawyer.CaseArgument | backend/agents/prosecution_agent.py:29-76 | the argument is the model's reply to the prompt built from exactly those sections: `Strip` of the reply (with its non-whitespace characters), or the sentinel with the failure's message |
| Lawyer.CaseOnApiFailure | backend/agents/prosecution_agent.py:32-76 | when every call fails, the case still has its role, crime and sections, and the argument is the sentinel instead of an exception |
| Lawyer.CaseDependsOnRequest | backend/agents/prosecution_agent.py:29-30 | the case depends on the chat model only through its answer to that one request |
| Lawyer.ConstructPrompt | backend/agents/prosecution_agent.py:39-61 | the prompt of `_construct_prompt`; specified by `PromptLayout` and `PromptShowsSection` |
| Lawyer.CallGroqApi | backend/agents/prosecution_agent.py:63-76 | `_call_groq_api` with the counsel's request; specified by `CaseArgument` and `CaseOnApiFailure` |
| Lawyer.PromptLayout | backend/agents/prosecution_agent.py:45-59 | the prompt embeds the crime verbatim in quotes right after its head, and the context after the provisions heading |
| Lawyer.PromptShowsSection | backend/agents/prosecution_agent.py:40-51 | every retrieved section's block occurs in the prompt, at the context start plus its block offset |
| Lawyer.QueriesUseKnownTypes | backend/agents/prosecution_agent.py:23-24 | both retrievals use a known document type, so neither path lookup raises `KeyError` |
| ProsecutionAgent.ProsecutionCase | backend/agents/prosecution_agent.py:23-35 | role `"Prosecution"`; sections are the crime's `top_k=2` IPC results followed by the `top_k=1` CrPC results for `"arrest and procedure"`; at most three; only known stores queried |
| ProsecutionAgent.ProsecutionRequest | backend/agents/prosecution_agent.py:16-73 | the prosecution persona, model `llama3-70b-8192`, temperature 0.3, at most 512 tokens |
| DefenseAgent.DefenseCase | backend/agents/defense_agent.py:23-35 | role `"Defense"`; sections are the crime's `top_k=2` IPC results followed by the `top_k=1` Evidence Act results for `"exceptions to admissibility"`; at most three; only known stores queried |
| DefenseAgent.DefenseRequest | backend/agents/defense_agent.py:16-73 | the defense persona, model `llama3-70b-8192`, temperature 0.3, at most 512 tokens |
| CrossExaminerAgent.CombineArguments | backend/agents/cross_examiner_agent.py:45-46 | `_combine_arguments`; specified by `CombinedArgumentsLayout` and `CombinedArgumentsSeePrefixes` |
| CrossExaminerAgent.ConstructPrompt | backend/agents/cross_examiner_agent.py:48-72 | `_construct_prompt` over the fixed prompt text; specified by `PromptLayout` and `PromptSeesExcerpts` |
| CrossExaminerAgent.CallGroqApi | backend/agents/cross_examiner_agent.py:74-87 | `_call_groq_api`; specified by `ExaminationQuestions` and `ExaminationOnApiFailure` |
| CrossExaminerAgent.CombinedArgumentsLayout | backend/agents/cross_examiner_agent.py:45-46 | the combined text is `"Prosecution: "`, the crime, `" - "`, the prosecution argument's first 200 characters, `" \| Defense: "` and the defense argument's first 200 characters, with the length these give |
| CrossExaminerAgent.CombinedArgumentsSeePrefixes | backend/agents/cross_examiner_agent.py:45-46 | only the crime and the first 200 characters of each argument affect the combined text |
| CrossExaminerAgent.Examine | backend/agents/cross_examiner_agent.py:18-43 | role `"Cross-Examiner"`; each summary is the argument's first 300 characters |
| CrossExaminerAgent.ExaminationSections | backend/agents/cross_examiner_agent.py:29-32 | the sections are the IPC results followed by the Evidence Act results, both queried with the combined text and `top_k=1`; at most two |
| CrossExaminerAgent.ExaminationQuestions | backend/agents/cross_examiner_agent.py:34-87 | the questions are the model's reply to the prompt built from exactly those sections: `Strip` of the reply (with its non-whitespace characters), or the sentinel with the failure's message |
| CrossExaminerAgent.ExaminationOnApiFailure | backend/agents/cross_examiner_agent.py:37-87 | when every call fails, the role, summaries and sections are still returned, and the questions are the sentinel |
| CrossExaminerAgent.RequestFor | backend/agents/cross_examiner_agent.py:76-84 | the cross-examiner persona, model `llama3-70b-8192`, temperature 0.5, at most 400 tokens |
| CrossExaminerAgent.PromptLayout | backend/agents/cross_examiner_agent.py:54-70 | the prompt quotes the prosecution excerpt, then the defense excerpt, then the context, in that order |
| CrossExaminerAgent.PromptSeesExcerpts | backend/agents/cross_examiner_agent.py:60-63 | only the first 300 characters of each argument reach the prompt |
| JudgeAgent.CombineInputs | backend/agents/judge_agent.py:46-47 | `_combine_inputs`; specified by `CombinedInputsLayout` and `CombinedInputsSeePrefixes` |
| JudgeAgent.ConstructPrompt | backend/agents/judge_agent.py:49-83 | `_construct_prompt` over the fixed prompt text; specified by `PromptLayout`, `PromptLayoutEnd` and `PromptSeesExcerpts` |
| JudgeAgent.CallGroqApi | backend/agents/judge_agent.py:85-98 | `_call_groq_api`; specified by `VerdictText` and `VerdictOnApiFailure` |
| JudgeAgent.CombinedInputsLayout | backend/agents/judge_agent.py:46-47 | the combined text starts with the crime and `" \| "`, then the prosecution argument's first 200 characters, and its length is the crime's plus 9 plus at most 200 for each prior text |
| JudgeAgent.CombinedInputsSeePrefixes | backend/agents/judge_agent.py:46-47 | only the crime and the first 200 characters of each prior text affect the combined text |
| JudgeAgent.RenderVerdict | backend/agents/judge_agent.py:18-44 | role `"Judge"`; the summary input is the combined text's first 500 characters |
| JudgeAgent.SummaryInputBound | backend/agents/judge_agent.py:41 | the summary input is at most 500 characters, is the whole combined text when that fits, and starts with the crime when the crime fits |
| JudgeAgent.VerdictSections | backend/agents/judge_agent.py:30-34 | the sections are the combined text's `top_k=2` IPC results, then the CrPC results for `"criminal procedure"`, then the Evidence Act results for `"burden of proof"` (both `top_k=1`); at most four; only known stores queried |
| JudgeAgent.VerdictText | backend/agents/judge_agent.py:36-98 | the verdict is the model's reply to the prompt built from exactly those sections: `Strip` of the reply (with its non-whitespace characters), or the sentinel with the failure's message |
| JudgeAgent.VerdictOnApiFailure | backend/agents/judge_agent.py:39-98 | when every call fails, the role `"Judge"`, the summary input and the sections are still returned, and the verdict is the sentinel |
| JudgeAgent.RequestFor | backend/agents/judge_agent.py:87-95 | the judge persona, model `llama3-70b-8192`, temperature 0.2, at most 600 tokens |
| JudgeAgent.PromptLayout | backend/agents/judge_agent.py:55-67 | the prompt quotes the crime, then the prosecution excerpt, then the defense excerpt, in that order |
| JudgeAgent.PromptLayoutEnd | backend/agents/judge_agent.py:66-73 | the defense excerpt is followed by the questions excerpt and then the context |
| JudgeAgent.PromptSeesExcerpts | backend/agents/judge_agent.py:61-70 | only the crime and the first 300 characters of each prior text reach the prompt |

## Left out

- The embedding model and the nearest-neighbour index (lines 19, 32 and 59-60 of `backend/retriever.py`) are foreign code over floating-point vectors. `Retrieve` takes the index and distance rows as input, and no ordering by distance is claimed.
- The chat-completion client is a network service. `ChatApi` stands for it: one function from the request to `Ok(content)` or `Err(message)`.
- In `__init__`, disk I/O is reduced to a `FileSystem` map from paths to contents. It covers `os.path.exists`, `faiss.read_index` and `json.load`. A file that exists but cannot be read is an error value.
- The PDF reading of `extract_sections` (`backend/ingest.py:19-28`) is not modelled. This includes the `return []` when `pdfplumber` raises. The model starts from the extracted `full_text`.
- The JSON output of `extract_sections` (`backend/ingest.py:52-55`) is not modelled.
- `extract_sections` takes the split pattern as a parameter `section_pattern`. The model fixes it to its default, `(?i)(?=\bsection\s+\d+)`.
- The split relies on `re.split` cutting at zero-width matches, which Python does from version 3.7 on. Earlier versions do not cut at empty matches, and that behaviour is not modelled.
- Default arguments are not modelled: `truncate_text`'s `max_length=200` and `retrieve`'s `top_k=3`. The model always passes them explicitly, and every call in the agents gives `top_k`.
- `print` calls, `load_dotenv` and the API key are left out, as are the client's base URL and the retriever's embedding model field.
- An agent constructs its retrievers inside `build_case`, `examine` and `render_verdict`. A missing store would raise there, but `Search` is total and models only stores that open. `Lawyer.QueriesUseKnownTypes` and the agents' case lemmas show that no lookup raises `KeyError`.
- The retriever is a datatype value rather than a class: `__init__` sets its fields once and nothing updates them.
- Character classes are ASCII only: whitespace, digits, word characters and case folding. Python's Unicode classes beyond U+007F are not modelled.
- Retriever.HitsBound: that the index returns at most `top_k` slots is the index's promise, so the lemma takes it as a precondition.
- The `score` is carried as a `real`. `float(distance)` conversion and the sign of distances are not modelled.
- `backend/embedding_manager.py`, `backend/core.py`, `frontend/streamlit_app.py`, `backend/utils/config_loader.py`, `backend/utils/logger.py`, `backend/utils/prompt_templates.py` and the tests are not part of this model.
