/** `LegalRetriever` of backend/retriever.py: the document-type path tables,
    construction against a file system, and the loop that turns the nearest-
    neighbour search output into retrieval results.

    The embedding model and the FAISS search are not modelled: `Retrieve`
    takes the search output (the slot indices and their distances) as input. */
module Retriever {
  import opened PyText
  import opened Records
  import Helpers

  /** The exceptions construction can raise. */
  datatype Error =
    | KeyError(key: string)
    | FileNotFound(message: string)
    | UnreadableIndex(path: string)
    | UnreadableSections(path: string)

  datatype Result<T> = Ok(value: T) | Err(error: Error)

  /** What a path holds on disk: a persisted vector index (opaque here) or a
      JSON list of section records. */
  datatype FileData = IndexFile | SectionsFile(records: seq<SectionRecord>)

  datatype FileSystem = FileSystem(files: map<string, FileData>)

  /** The three document types that have an index and a section store. */
  const DocumentTypes: set<string> := {"ipc", "crpc", "evidence_act"}

  /** The members of `DocumentTypes`, one by one. */
  lemma KnownTypes()
    ensures "ipc" in DocumentTypes && "crpc" in DocumentTypes && "evidence_act" in DocumentTypes
  {
  }

  /** Content longer than this is cut for display. */
  const MaxContent := 500

  /** The dictionary behind `_get_index_path`; each value is
      `os.path.join("data/vectorstore", <type> + "_vectorstore.faiss")` on a
      POSIX system. */
  function IndexPaths(): map<string, string> {
    map[
      "ipc" := "data/vectorstore/ipc_vectorstore.faiss",
      "crpc" := "data/vectorstore/crpc_vectorstore.faiss",
      "evidence_act" := "data/vectorstore/evidence_act_vectorstore.faiss"]
  }

  /** The dictionary behind `_get_sections_path`; each value is
      `os.path.join("data/processed", <type> + "_sections.json")`. */
  function SectionsPaths(): map<string, string> {
    map[
      "ipc" := "data/processed/ipc_sections.json",
      "crpc" := "data/processed/crpc_sections.json",
      "evidence_act" := "data/processed/evidence_act_sections.json"]
  }

  /** `_get_index_path`: a dictionary lookup that raises `KeyError` for an
      unknown document type. */
  function IndexPath(documentType: string): (r: Result<string>)
    ensures r.Ok? <==> documentType in DocumentTypes
    ensures r.Err? ==> r.error == KeyError(documentType)
  {
    var table := IndexPaths();
    if documentType in table then Ok(table[documentType]) else Err(KeyError(documentType))
  }

  /** `_get_sections_path`: the same keys, the processed-JSON directory. */
  function SectionsPath(documentType: string): (r: Result<string>)
    ensures r.Ok? <==> documentType in DocumentTypes
    ensures r.Err? ==> r.error == KeyError(documentType)
  {
    var table := SectionsPaths();
    if documentType in table then Ok(table[documentType]) else Err(KeyError(documentType))
  }

  /** The paths the two tables give. */
  lemma PathTables()
    ensures IndexPath("ipc") == Ok("data/vectorstore/ipc_vectorstore.faiss")
    ensures IndexPath("crpc") == Ok("data/vectorstore/crpc_vectorstore.faiss")
    ensures IndexPath("evidence_act") == Ok("data/vectorstore/evidence_act_vectorstore.faiss")
    ensures SectionsPath("ipc") == Ok("data/processed/ipc_sections.json")
    ensures SectionsPath("crpc") == Ok("data/processed/crpc_sections.json")
    ensures SectionsPath("evidence_act") == Ok("data/processed/evidence_act_sections.json")
  {
  }

  /** Each document type owns its own index file and its own section store:
      distinct types never share a path, and no index path is a store path. */
  lemma PathsAreDistinct(d1: string, d2: string)
    requires d1 in DocumentTypes && d2 in DocumentTypes
    ensures IndexPath(d1) == IndexPath(d2) <==> d1 == d2
    ensures SectionsPath(d1) == SectionsPath(d2) <==> d1 == d2
    ensures IndexPath(d1).value != SectionsPath(d2).value
  {
    PathTables();
  }

  /** The fields `__init__` sets; none of them changes afterwards. */
  datatype LegalRetriever = LegalRetriever(
    documentType: string,
    indexPath: string,
    sectionsPath: string,
    sections: seq<SectionRecord>)

  /** `LegalRetriever(document_type)`: look both paths up (an unknown type
      raises `KeyError` from the first lookup), check that the index file and
      then the sections file exist, then load both. */
  function Open(documentType: string, fs: FileSystem): (r: Result<LegalRetriever>)
    ensures documentType !in DocumentTypes ==> r == Err(KeyError(documentType))
    ensures documentType in DocumentTypes ==>
      var ip := IndexPath(documentType).value;
      var sp := SectionsPath(documentType).value;
      && (ip !in fs.files ==> r == Err(FileNotFound("Vector store not found at " + ip)))
      && (ip in fs.files && sp !in fs.files ==> r == Err(FileNotFound("Sections JSON not found at " + sp)))
    ensures r.Ok? <==>
      && documentType in DocumentTypes
      && IndexPath(documentType).value in fs.files
      && fs.files[IndexPath(documentType).value].IndexFile?
      && SectionsPath(documentType).value in fs.files
      && fs.files[SectionsPath(documentType).value].SectionsFile?
    ensures r.Ok? ==>
      && r.value.documentType == documentType
      && r.value.sections == fs.files[SectionsPath(documentType).value].records
  {
    match IndexPath(documentType)
    case Err(e) => Err(e)
    case Ok(indexPath) =>
      var sectionsPath := SectionsPath(documentType).value;
      if indexPath !in fs.files then
        Err(FileNotFound("Vector store not found at " + indexPath))
      else if sectionsPath !in fs.files then
        Err(FileNotFound("Sections JSON not found at " + sectionsPath))
      else if !fs.files[indexPath].IndexFile? then
        Err(UnreadableIndex(indexPath))
      else if !fs.files[sectionsPath].SectionsFile? then
        Err(UnreadableSections(sectionsPath))
      else
        Ok(LegalRetriever(documentType, indexPath, sectionsPath, fs.files[sectionsPath].records))
  }

  /** Python list indexing `sections[idx]` succeeds exactly for these `idx`:
      a negative index counts from the end. */
  predicate InRange(n: nat, idx: int) {
    -(n as int) <= idx < n
  }

  /** `sections[idx]` for an index that does not raise `IndexError`: a
      negative index counts from the end, so the element is the one at the
      index's residue modulo the length. */
  function PyIndex<T>(s: seq<T>, idx: int): (x: T)
    requires InRange(|s|, idx)
    ensures x == s[idx % |s|]
  {
    if idx >= 0 then s[idx] else s[|s| + idx]
  }

  /** The display cut of line 73: `content[:500] + "..."` above 500 characters. */
  function ShortContent(content: string): string {
    if |content| > MaxContent then content[..MaxContent] + "..." else content
  }

  /** The record appended for a kept slot. */
  function Hit(documentType: string, section: SectionRecord, distance: real): RetrievalResult {
    RetrievalResult(Upper(documentType), section.sectionId, section.title, ShortContent(section.content), distance)
  }

  /** The results of the post-search loop over the first `|indices|` slots:
      slots whose index raises `IndexError` contribute nothing. */
  function Hits(documentType: string, sections: seq<SectionRecord>, indices: seq<int>, distances: seq<real>):
    seq<RetrievalResult>
    requires |indices| == |distances|
    decreases |indices|
  {
    if indices == [] then []
    else
      var n := |indices| - 1;
      Hits(documentType, sections, indices[..n], distances[..n])
      + (if InRange(|sections|, indices[n])
         then [Hit(documentType, PyIndex(sections, indices[n]), distances[n])]
         else [])
  }

  /** `retrieve`'s loop (lines 62-79) over the search output `indices`,
      `distances` (one row each, equally long, as the index search returns):
      one result per slot whose index does not raise `IndexError`. */
  method Retrieve(r: LegalRetriever, indices: seq<int>, distances: seq<real>) returns (results: seq<RetrievalResult>)
    requires |indices| == |distances|
    ensures results == Hits(r.documentType, r.sections, indices, distances)
  {
    results := [];
    for i := 0 to |indices|
      invariant results == Hits(r.documentType, r.sections, indices[..i], distances[..i])
    {
      assert indices[..i + 1][..i] == indices[..i];
      assert distances[..i + 1][..i] == distances[..i];
      var idx := indices[i];
      var distance := distances[i];
      if !InRange(|r.sections|, idx) {
        continue;  // IndexError: skip the slot
      }
      var section := PyIndex(r.sections, idx);
      results := results + [Hit(r.documentType, section, distance)];
    }
    assert indices[..|indices|] == indices;
    assert distances[..|distances|] == distances;
  }

  /** The slots (positions in the search output) that yield a result, in order. */
  function KeptSlots(n: nat, indices: seq<int>): seq<nat>
    decreases |indices|
  {
    if indices == [] then []
    else
      var m := |indices| - 1;
      KeptSlots(n, indices[..m]) + (if InRange(n, indices[m]) then [m] else [])
  }

  /** The kept slots are strictly increasing and are exactly the slots whose
      index is in range. */
  lemma {:induction false} KeptSlotsSpec(n: nat, indices: seq<int>)
    ensures forall j :: 0 <= j < |KeptSlots(n, indices)| ==> KeptSlots(n, indices)[j] < |indices|
    ensures forall j, k :: 0 <= j < k < |KeptSlots(n, indices)| ==> KeptSlots(n, indices)[j] < KeptSlots(n, indices)[k]
    ensures forall i :: 0 <= i < |indices| ==> (i in KeptSlots(n, indices) <==> InRange(n, indices[i]))
    decreases |indices|
  {
    if indices != [] {
      var m := |indices| - 1;
      KeptSlotsSpec(n, indices[..m]);
      assert forall i :: 0 <= i < m ==> indices[..m][i] == indices[i];
    }
  }

  /** The results are exactly one hit per kept slot, in slot order: result
      `j` is built from the section the `j`-th kept slot selects and carries
      that slot's distance. */
  lemma {:induction false} HitsAreKeptSlots(documentType: string, sections: seq<SectionRecord>, indices: seq<int>, distances: seq<real>)
    requires |indices| == |distances|
    ensures var h := Hits(documentType, sections, indices, distances);
      var k := KeptSlots(|sections|, indices);
      && |h| == |k|
      && forall j :: 0 <= j < |h| ==>
           k[j] < |indices| && InRange(|sections|, indices[k[j]]) &&
           h[j] == Hit(documentType, PyIndex(sections, indices[k[j]]), distances[k[j]])
    decreases |indices|
  {
    if indices != [] {
      var m := |indices| - 1;
      HitsAreKeptSlots(documentType, sections, indices[..m], distances[..m]);
      KeptSlotsSpec(|sections|, indices[..m]);
    }
  }

  /** Never more results than search slots, hence never more than `top_k`. */
  lemma {:induction false} HitsBound(documentType: string, sections: seq<SectionRecord>, indices: seq<int>, distances: seq<real>, topK: int)
    requires |indices| == |distances| && |indices| <= topK
    ensures |Hits(documentType, sections, indices, distances)| <= |indices| <= topK
    decreases |indices|
  {
    if indices != [] {
      var m := |indices| - 1;
      HitsBound(documentType, sections, indices[..m], distances[..m], m);
    }
  }

  /** A search whose slots all hit the store drops nothing. */
  lemma {:induction false} HitsAllInRange(documentType: string, sections: seq<SectionRecord>, indices: seq<int>, distances: seq<real>)
    requires |indices| == |distances|
    requires forall i :: 0 <= i < |indices| ==> InRange(|sections|, indices[i])
    ensures |Hits(documentType, sections, indices, distances)| == |indices|
    decreases |indices|
  {
    if indices != [] {
      var m := |indices| - 1;
      assert forall i :: 0 <= i < m ==> indices[..m][i] == indices[i];
      HitsAllInRange(documentType, sections, indices[..m], distances[..m]);
    }
  }

  /** FAISS's `-1` filler slot does not raise: it selects the last section.
      Only an empty store makes it drop. */
  lemma FillerSlotSelectsLast(documentType: string, sections: seq<SectionRecord>, distance: real)
    ensures |sections| > 0 ==>
      Hits(documentType, sections, [-1], [distance]) == [Hit(documentType, sections[|sections| - 1], distance)]
    ensures |sections| == 0 ==> Hits(documentType, sections, [-1], [distance]) == []
  {
    assert [-1][..0] == [];
    assert [distance][..0] == [];
  }

  /** An index at or beyond the store's length, or below minus its length, is
      dropped; every other index is kept. */
  lemma OneSlot(documentType: string, sections: seq<SectionRecord>, idx: int, distance: real)
    ensures |Hits(documentType, sections, [idx], [distance])| == (if -|sections| <= idx < |sections| then 1 else 0)
  {
    assert [idx][..0] == [];
    assert [distance][..0] == [];
  }

  /** The display cut is `truncate_text(content, 500)`: unchanged up to 500
      characters, otherwise the first 500 characters and an ellipsis, 503 in
      all. */
  lemma ShortContentIsTruncation(content: string)
    ensures ShortContent(content) == Helpers.TruncateText(content, MaxContent)
    ensures |content| <= MaxContent ==> ShortContent(content) == content
    ensures |content| > MaxContent ==> |ShortContent(content)| == MaxContent + 3
  {
  }

  /** A hit copies the section's id and title and the slot's distance
      unchanged, and tags the upper-cased document type. */
  lemma HitFields(documentType: string, section: SectionRecord, distance: real)
    ensures var h := Hit(documentType, section, distance);
      && h.sectionId == section.sectionId && h.title == section.title && h.score == distance
      && h.docType == Upper(documentType) && |h.docType| == |documentType|
      && forall i :: 0 <= i < |h.docType| ==> !IsLower(h.docType[i])
  {
  }

  /** The tags the three stores produce. */
  lemma DocTypeTags()
    ensures Upper("ipc") == "IPC"
    ensures Upper("crpc") == "CRPC"
    ensures Upper("evidence_act") == "EVIDENCE_ACT"
  {
    assert UpperChar('e') == 'E' && UpperChar('v') == 'V' && UpperChar('i') == 'I' && UpperChar('d') == 'D';
    assert UpperChar('n') == 'N' && UpperChar('c') == 'C' && UpperChar('_') == '_' && UpperChar('a') == 'A';
    assert UpperChar('t') == 'T' && UpperChar('p') == 'P' && UpperChar('r') == 'R';
    UpperLiteral("ipc", "IPC");
    UpperLiteral("crpc", "CRPC");
    UpperLiteral("evidence_act", "EVIDENCE_ACT");
  }

  lemma UpperLiteral(s: string, t: string)
    requires |s| == |t|
    requires forall i :: 0 <= i < |s| ==> UpperChar(s[i]) == t[i]
    ensures Upper(s) == t
  {
  }
}
