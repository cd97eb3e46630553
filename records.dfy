/** The two records the core passes around: a statute section as ingestion
    writes it and the retriever loads it, and one retrieval hit. */
module Records {

  /** `{"section_id", "title", "content"}`, one per statute section. */
  datatype SectionRecord = SectionRecord(sectionId: string, title: string, content: string)

  /** `{"doc_type", "section_id", "title", "content", "score"}`, one per kept
      search slot; `score` is the index distance, carried through unchanged. */
  datatype RetrievalResult = RetrievalResult(
    docType: string,
    sectionId: string,
    title: string,
    content: string,
    score: real)
}
