/** What the four agents of backend/agents/ share: the chat-completion call
    with its error sentinel, the retrieval queries, the case a lawyer agent
    returns, and the legal-provisions context built from retrieved sections.

    The language model and the retriever are not modelled: an agent is given
    them as functions, `ChatApi` from the request it sends to the outcome of
    the call, and `Search` from a query to the results the retriever
    returns. */
module Courtroom {
  import opened PyText
  import opened Records
  import opened Lists

  /** `self.model`, set by every agent's `__init__`. */
  const ModelName := "llama3-70b-8192"

  /** The text `_call_groq_api` returns in place of a raised exception,
      followed by the exception's message. */
  const ErrorPrefix := "[Error] Failed to get response from Groq API: "

  /** The prior texts a prompt quotes are cut to this many characters. */
  const ExcerptLength := 300

  /** The outcome of `client.chat.completions.create`: the first choice's
      message content, or the message of the exception it raised. */
  datatype ApiOutcome = Ok(text: string) | Err(message: string)

  /** One chat-completion request: the system message, the user message,
      the model and the sampling settings. */
  datatype Request = Request(system: string, user: string, model: string, temperature: real, maxTokens: nat)

  /** One `LegalRetriever(document_type=docType).retrieve(text, top_k=topK)`. */
  datatype Query = Query(docType: string, text: string, topK: int)

  type ChatApi = Request -> ApiOutcome

  type Search = Query -> seq<RetrievalResult>

  /** The dictionary `build_case` returns. */
  datatype Case = Case(role: string, crimeDescription: string, retrievedSections: seq<RetrievalResult>, argument: string)

  /** A text that starts with the error sentinel. */
  predicate IsErrorReply(r: string) {
    |ErrorPrefix| <= |r| && r[..|ErrorPrefix|] == ErrorPrefix
  }

  /** The exception message a sentinel text carries. */
  function ErrorMessage(r: string): string
    requires IsErrorReply(r)
  {
    r[|ErrorPrefix|..]
  }

  /** `_call_groq_api` once its request is sent: the reply with surrounding
      whitespace stripped, or, for any exception, the sentinel text carrying
      the exception's message. It never raises. */
  function Complete(outcome: ApiOutcome): (r: string)
    ensures outcome.Ok? ==>
      && (r == [] || (!IsSpace(r[0]) && !IsSpace(r[|r| - 1])))
      && NonSpace(r) == NonSpace(outcome.text)
    ensures outcome.Err? ==> IsErrorReply(r) && ErrorMessage(r) == outcome.message
  {
    match outcome
    case Ok(text) =>
      StripKeepsNonSpace(text);
      Strip(text)
    case Err(message) =>
      assert (ErrorPrefix + message)[..|ErrorPrefix|] == ErrorPrefix;
      ErrorPrefix + message
  }

  /** A successful reply is the model's text less a whitespace-only prefix
      and suffix. */
  lemma ReplyIsTrimmedSlice(text: string)
    ensures exists i, j ::
      && 0 <= i <= j <= |text| && Complete(Ok(text)) == text[i..j]
      && IsBlank(text[..i]) && IsBlank(text[j..])
  {
    StripInfix(text);
  }

  /** The text returned for a reply reads like the text returned for an
      exception exactly when the stripped reply itself starts with the
      sentinel and carries that exception's message: the sentinel is
      ambiguous only for such replies. */
  lemma ReplyLooksLikeError(text: string, message: string)
    ensures Complete(Ok(text)) == Complete(Err(message)) <==>
      IsErrorReply(Strip(text)) && ErrorMessage(Strip(text)) == message
  {
    PrefixedBy(Strip(text), ErrorPrefix, message);
  }

  /** Each result list is at most `top_k` long, as the retriever's loop
      over the `top_k` search slots guarantees. */
  ghost predicate RespectsTopK(search: Search) {
    forall q :: |search(q)| <= Max(q.topK, 0)
  }

  /** The results of the queries, concatenated in query order. */
  function Gather(search: Search, queries: seq<Query>): seq<RetrievalResult>
    decreases |queries|
  {
    if queries == [] then [] else search(queries[0]) + Gather(search, queries[1..])
  }

  /** The largest number of results the queries can ask for. */
  function TopKSum(queries: seq<Query>): nat
    decreases |queries|
  {
    if queries == [] then 0 else Max(queries[0].topK, 0) + TopKSum(queries[1..])
  }

  /** A retriever that keeps to `top_k` yields at most the sum of the
      queries' `top_k` results. */
  lemma {:induction false} GatherBound(search: Search, queries: seq<Query>)
    requires RespectsTopK(search)
    ensures |Gather(search, queries)| <= TopKSum(queries)
    decreases |queries|
  {
    if queries != [] {
      assert |search(queries[0])| <= Max(queries[0].topK, 0);
      GatherBound(search, queries[1..]);
    }
  }

  /** The results of the first query come first; the rest follow in order. */
  lemma GatherTwo(search: Search, a: Query, b: Query)
    ensures Gather(search, [a, b]) == search(a) + search(b)
  {
    assert [a, b][1..] == [b];
    assert [b][1..] == [];
    assert Gather(search, [b]) == search(b) + [];
  }

  lemma GatherThree(search: Search, a: Query, b: Query, c: Query)
    ensures Gather(search, [a, b, c]) == search(a) + search(b) + search(c)
  {
    assert [a, b, c][1..] == [b, c];
    GatherTwo(search, b, c);
  }

  /** The first line of a section's block. */
  function Header(sec: RetrievalResult): string {
    "[" + sec.docType + " Section " + sec.sectionId + "]: " + sec.title
  }

  /** `f"[{doc_type} Section {section_id}]: {title}\n{content}"`. */
  function FormatSection(sec: RetrievalResult): string {
    Header(sec) + "\n" + sec.content
  }

  /** With no line break in the type, id or title, the block's first line
      is the header and the rest is the content unchanged. */
  lemma FormatSectionSplit(sec: RetrievalResult)
    requires '\n' !in sec.docType && '\n' !in sec.sectionId && '\n' !in sec.title
    ensures var r := FormatSection(sec);
      var n := Find(r, '\n');
      && n == |Header(sec)|
      && r[..n] == Header(sec)
      && r[n + 1..] == sec.content
  {
    var h := Header(sec);
    var r := FormatSection(sec);
    assert '\n' !in h;
    assert r[|h|] == '\n';
    assert r[..|h|] == h;
    var n := Find(r, '\n');
    assert n >= 0;
  }

  /** The context of `_construct_prompt`: the sections' blocks joined by a
      blank line, in the order retrieved. */
  function Context(sections: seq<RetrievalResult>): string {
    Join("\n\n", Map(FormatSection, sections))
  }

  /** No sections give an empty context; one section gives its block. */
  lemma ContextShort(sections: seq<RetrievalResult>)
    ensures sections == [] ==> Context(sections) == ""
    ensures |sections| == 1 ==> Context(sections) == FormatSection(sections[0])
  {
  }

  /** Concatenating two result lists joins their contexts with a blank
      line. */
  lemma ContextAppend(a: seq<RetrievalResult>, b: seq<RetrievalResult>)
    ensures a == [] ==> Context(a + b) == Context(b)
    ensures b == [] ==> Context(a + b) == Context(a)
    ensures a != [] && b != [] ==> Context(a + b) == Context(a) + "\n\n" + Context(b)
  {
    if a == [] {
      assert a + b == b;
    } else if b == [] {
      assert a + b == a;
    } else {
      MapAppend(FormatSection, a, b);
      JoinAppend("\n\n", Map(FormatSection, a), Map(FormatSection, b));
    }
  }

  /** Where section `i`'s block starts in the context. */
  function BlockOffset(sections: seq<RetrievalResult>, i: nat): nat
    requires i <= |sections|
  {
    JoinOffset("\n\n", Map(FormatSection, sections), i)
  }

  /** Every section's block occurs in the context, at its offset. */
  lemma ContextBlocks(sections: seq<RetrievalResult>, i: nat)
    requires i < |sections|
    ensures OccursAt(Context(sections), FormatSection(sections[i]), BlockOffset(sections, i))
  {
    JoinItem("\n\n", Map(FormatSection, sections), i);
  }

  /** Offsets grow with the section's position, a block and a blank line at
      a time, so the blocks keep the order of the retrieved list. */
  lemma BlockOffsetNext(sections: seq<RetrievalResult>, i: nat)
    requires i < |sections|
    ensures BlockOffset(sections, i + 1) == BlockOffset(sections, i) + |FormatSection(sections[i])| + 2
  {
    JoinOffsetNext("\n\n", Map(FormatSection, sections), i);
  }

  /** A prior text as a prompt quotes it: its first 300 characters between
      double quotes, with an ellipsis before the closing quote. */
  function Excerpt(t: string): string {
    "\"" + Take(t, ExcerptLength) + "...\""
  }

  /** The excerpt holds the first 300 characters exactly, so only those of
      the quoted text reach the prompt. */
  lemma ExcerptSpec(t: string, u: string)
    ensures |Excerpt(t)| == Min(|t|, ExcerptLength) + 5
    ensures OccursAt(Excerpt(t), t[..Min(|t|, ExcerptLength)], 1)
    ensures Excerpt(t) == Excerpt(u) <==> Take(t, ExcerptLength) == Take(u, ExcerptLength)
  {
    var a, b := Take(t, ExcerptLength), Take(u, ExcerptLength);
    OccursInMiddle("\"", a, "...\"");
    if Excerpt(t) == Excerpt(u) {
      assert |a| == |b|;
      assert Excerpt(t)[1..1 + |a|] == a;
      assert Excerpt(u)[1..1 + |b|] == b;
    }
  }

  /** A text between double quotes. */
  function Quoted(t: string): string {
    "\"" + t + "\""
  }

  /** A prompt of the shape head, quoted text, heading, context, tail holds
      the quoted text right after the head and the context right after the
      heading. */
  lemma FiveParts(a: string, b: string, c: string, d: string, e: string)
    ensures OccursAt(a + b + c + d + e, b, |a|)
    ensures OccursAt(a + b + c + d + e, d, |a| + |b| + |c|)
  {
    OccursInMiddle(a, b, c);
    OccursWithin(a + b + c, b, |a|, [], d + e);
    assert [] + (a + b + c) + (d + e) == a + b + c + d + e;
    OccursInMiddle(a + b + c, d, e);
  }

  /** A text of six parts starts with the first, holds the second and the
      fourth at their starts, and ends with the last. */
  lemma SixParts(a: string, b: string, c: string, d: string, e: string, f: string)
    ensures var r := a + b + c + d + e + f;
      && r[..|a|] == a
      && OccursAt(r, b, |a|)
      && OccursAt(r, d, |a| + |b| + |c|)
      && r[|r| - |f|..] == f
  {
    var r := a + b + c + d + e + f;
    assert r == a + b + (c + d + e + f);
    OccursInMiddle(a, b, c + d + e + f);
    assert r == a + b + c + d + (e + f);
    OccursInMiddle(a + b + c, d, e + f);
    assert r == (a + b + c + d + e) + f;
  }

  /** Section `i`'s block sits at its offset in a context embedded in a
      prompt. */
  lemma BlockInFrame(before: string, sections: seq<RetrievalResult>, after: string, i: nat)
    requires i < |sections|
    ensures OccursAt(before + Context(sections) + after, FormatSection(sections[i]), |before| + BlockOffset(sections, i))
  {
    ContextBlocks(sections, i);
    OccursWithin(Context(sections), FormatSection(sections[i]), BlockOffset(sections, i), before, after);
  }

  /** Where part `k` of a prompt assembled from parts starts. */
  function PartStart(parts: seq<string>, k: nat): nat
    requires k <= |parts|
  {
    |Concat(parts[..k])|
  }

  /** Each part of an assembled prompt occurs at its start, and the parts
      follow one another without gaps. */
  lemma ConcatPart(parts: seq<string>, k: nat)
    requires k < |parts|
    ensures OccursAt(Concat(parts), parts[k], PartStart(parts, k))
    ensures PartStart(parts, k + 1) == PartStart(parts, k) + |parts[k]|
  {
    ConcatSplit(parts, k);
    ConcatFrom(parts, k);
    OccursInMiddle(Concat(parts[..k]), parts[k], Concat(parts[k + 1..]));
    ConcatSnoc(parts, k);
  }

  lemma ConcatFrom(parts: seq<string>, k: nat)
    requires k < |parts|
    ensures Concat(parts[k..]) == parts[k] + Concat(parts[k + 1..])
  {
    assert parts[k..][1..] == parts[k + 1..];
  }

  lemma ConcatSnoc(parts: seq<string>, k: nat)
    requires k < |parts|
    ensures Concat(parts[..k + 1]) == Concat(parts[..k]) + parts[k]
  {
    var pre := parts[..k + 1];
    ConcatSplit(pre, k);
    assert pre[..k] == parts[..k];
    assert pre[k..] == [parts[k]];
    assert Concat([parts[k]]) == parts[k] + Concat([]);
  }

  lemma {:induction false} ConcatSplit(parts: seq<string>, k: nat)
    requires k <= |parts|
    ensures Concat(parts) == Concat(parts[..k]) + Concat(parts[k..])
    decreases k
  {
    if k == 0 {
      assert parts[..0] == [] && parts[0..] == parts;
    } else {
      ConcatSplit(parts[1..], k - 1);
      assert parts[1..][..k - 1] == parts[..k][1..];
      assert parts[1..][k - 1..] == parts[k..];
      assert parts[..k][0] == parts[0];
    }
  }

  /** Later parts start no earlier. */
  lemma PartStartMonotone(parts: seq<string>, a: nat, b: nat)
    requires a <= b <= |parts|
    ensures PartStart(parts, a) <= PartStart(parts, b)
  {
    ConcatSplit(parts[..b], a);
    assert parts[..b][..a] == parts[..a];
  }

  /** Three parts, the first two non-empty, occur at their starts in
      strictly increasing order. */
  lemma ThreeParts(parts: seq<string>, i: nat, j: nat, k: nat)
    requires i < j < k < |parts|
    requires |parts[i]| > 0 && |parts[j]| > 0
    ensures OccursAt(Concat(parts), parts[i], PartStart(parts, i))
    ensures OccursAt(Concat(parts), parts[j], PartStart(parts, j))
    ensures OccursAt(Concat(parts), parts[k], PartStart(parts, k))
    ensures PartStart(parts, i) < PartStart(parts, j) < PartStart(parts, k)
  {
    ConcatPart(parts, i);
    ConcatPart(parts, j);
    ConcatPart(parts, k);
    PartStartMonotone(parts, i + 1, j);
    PartStartMonotone(parts, j + 1, k);
  }
}
