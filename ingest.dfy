/** The text-splitting and record-building part of `extract_sections` in
    backend/ingest.py, taking the already extracted `full_text` as input. */
module Ingest {
  import opened PyText
  import opened Records
  import opened Lists
  import opened SectionPattern
  import opened SectionSplit

  /** The id is searched for in `sec[:150]` only. */
  const HeadWindow := 150

  /** `raw_sections` after the `pop(0)`: the pieces of the split, less the
      first one exactly when it is empty or only whitespace; none of the
      pieces left is blank. */
  function RawSections(fullText: string): (raw: seq<string>)
    ensures var pieces := SplitSections(fullText);
      && |pieces| - 1 <= |raw| <= |pieces| && raw == pieces[|pieces| - |raw|..]
      && (|raw| < |pieces| <==> IsBlank(pieces[0]))
    ensures forall k :: 0 <= k < |raw| ==> !IsBlank(raw[k])
  {
    var pieces := SplitSections(fullText);
    LaterPiecesNotBlank(fullText);
    if IsBlank(pieces[0]) then pieces[1..] else pieces
  }

  /** Every piece after the first starts with a heading, so none is blank. */
  lemma LaterPiecesNotBlank(fullText: string)
    ensures forall k :: 1 <= k < |SplitSections(fullText)| ==> !IsBlank(SplitSections(fullText)[k])
  {
    var pieces := SplitSections(fullText);
    forall k | 1 <= k < |pieces|
      ensures !IsBlank(pieces[k])
    {
      SplitPieceHeading(fullText, k);
      assert !IsSpace(pieces[k][0]);
    }
  }

  /** The raw pieces give back `full_text` minus, at most, a whitespace-only
      prefix. */
  lemma RawSectionsRoundTrip(fullText: string)
    ensures var rest := Concat(RawSections(fullText));
      |rest| <= |fullText| && fullText[|fullText| - |rest|..] == rest && IsBlank(fullText[..|fullText| - |rest|])
  {
    var pieces := SplitSections(fullText);
    SplitRoundTrip(fullText);
    if IsBlank(pieces[0]) {
      assert Concat(pieces) == pieces[0] + Concat(pieces[1..]);
      assert fullText[..|pieces[0]|] == pieces[0];
    }
  }

  /** `title_end_idx`: the end of the first `[:\.]\s*\n?` match, otherwise
      `sec.find("\n")`, which is -1 when there is no newline either. */
  function TitleEnd(sec: string): int {
    match FindPunct(sec)
    case Some(c) => SkipSpaces(sec, c + 1)
    case None => Find(sec, '\n')
  }

  /** `sec_id_match.group(1)`: the digits of the leftmost heading in the
      first 150 characters, or `None` when there is no match. */
  function SectionIdOf(sec: string): Option<string> {
    var w := Take(sec, HeadWindow);
    match FirstHeading(w, 0)
    case None => None
    case Some(p) =>
      var q := NumberStart(w, p);
      Some(w[q..DigitRunEnd(w, q)])
  }

  /** `sec[:title_end_idx].strip()`. */
  function Title(sec: string): string {
    Strip(Take(sec, TitleEnd(sec)))
  }

  /** One raw piece turned into a record, or `None` where the loop does
      `continue`. */
  function ParsePiece(sec: string): Option<SectionRecord> {
    match SectionIdOf(sec)
    case None => None
    case Some(id) => Some(SectionRecord(id, Title(sec), Strip(sec)))
  }

  /** A piece yields a record exactly when a heading lies wholly within its
      first 150 characters. */
  lemma ParsePieceSome(sec: string)
    ensures ParsePiece(sec).Some? <==> exists p :: HeadingAt(Take(sec, HeadWindow), p)
  {
    var w := Take(sec, HeadWindow);
    match FirstHeading(w, 0)
    case None =>
    case Some(p) => assert HeadingAt(w, p);
  }

  /** The id is the non-empty, maximal digit run that follows the leftmost
      heading of the window (cut at the window's end). */
  lemma SectionIdSpec(sec: string)
    requires SectionIdOf(sec).Some?
    ensures var w := Take(sec, HeadWindow);
      var id := SectionIdOf(sec).value;
      exists p: nat :: HeadingAt(w, p) && (forall p' :: 0 <= p' < p ==> !HeadingAt(w, p'))
        && var q := NumberStart(w, p);
           && OccursAt(w, id, q)
           && |id| > 0
           && (forall i :: 0 <= i < |id| ==> IsDigit(id[i]))
           && (q + |id| == |w| || !IsDigit(w[q + |id|]))
  {
    var w := Take(sec, HeadWindow);
    var p := FirstHeading(w, 0).value;
    var q := NumberStart(w, p);
    var e := DigitRunEnd(w, q);
    var id := SectionIdOf(sec).value;
    HeadingAtSpec(w, p);
    assert id == w[q..e];
    assert id[0] == w[q];
    assert HeadingAt(w, p);
  }

  /** A record carries the piece's id, its title and the whole piece,
      stripped, as content. */
  lemma ParsePieceFields(sec: string)
    requires ParsePiece(sec).Some?
    ensures SectionIdOf(sec).Some?
    ensures ParsePiece(sec).value == SectionRecord(SectionIdOf(sec).value, Title(sec), Strip(sec))
  {
  }

  /** A piece that starts with a heading whose number ends inside the window
      gets that number as its id. */
  lemma HeadPieceId(sec: string)
    requires HeadingAt(sec, 0)
    requires DigitRunEnd(sec, NumberStart(sec, 0)) <= HeadWindow
    ensures SectionIdOf(sec) == Some(sec[NumberStart(sec, 0)..DigitRunEnd(sec, NumberStart(sec, 0))])
  {
    var w := Take(sec, HeadWindow);
    var n := |w|;
    assert w == sec[..n];
    HeadingInPrefix(sec, n);
    assert FirstHeading(w, 0) == Some(0);
    var q := NumberStart(sec, 0);
    SliceOfPrefix(sec, n, q, DigitRunEnd(sec, q));
  }

  /** With a `:` or `.` in the piece, the title is the stripped text up to
      and including the first of them. */
  lemma TitleAtPunct(sec: string, c: nat)
    requires FindPunct(sec) == Some(c)
    ensures Title(sec) == Strip(sec[..c + 1])
  {
    TitleEndAtPunct(sec, c);
    StripSkippedSpaces(sec, c + 1);
  }

  lemma TitleEndAtPunct(sec: string, c: nat)
    requires FindPunct(sec) == Some(c)
    ensures c < |sec| && Title(sec) == Strip(Take(sec, SkipSpaces(sec, c + 1)))
  {
    assert TitleEnd(sec) == SkipSpaces(sec, c + 1);
  }

  /** With neither punctuation nor a newline, `sec.find("\n")` is -1 and the
      slice `sec[:-1]` drops the last character. */
  lemma TitleWithoutBreaks(sec: string)
    requires FindPunct(sec).None? && '\n' !in sec
    ensures Title(sec) == Strip(sec[..Max(0, |sec| - 1)])
  {
    assert TitleEnd(sec) == -1;
  }

  /** Each piece parsed on its own. */
  function Parses(pieces: seq<string>): (r: seq<Option<SectionRecord>>)
    ensures |r| == |pieces|
  {
    Map(ParsePiece, pieces)
  }

  /** The records the loop produces from `pieces`: one per piece that
      parses, in piece order. */
  function PieceRecords(pieces: seq<string>): (r: seq<SectionRecord>)
    ensures |r| <= |pieces|
  {
    SomesBound(Parses(pieces));
    Somes(Parses(pieces))
  }

  /** Records keep the pieces' order: the records of `a + b` are those of
      `a` followed by those of `b`. */
  lemma RecordsAppend(a: seq<string>, b: seq<string>)
    ensures PieceRecords(a + b) == PieceRecords(a) + PieceRecords(b)
  {
    MapAppend(ParsePiece, a, b);
    SomesAppend(Parses(a), Parses(b));
  }

  /** Piece `i` contributes its own record, if it parses, between the
      records of the pieces before and after it. */
  lemma RecordsAround(pieces: seq<string>, i: nat)
    requires i < |pieces|
    ensures PieceRecords(pieces) == PieceRecords(pieces[..i])
      + (match ParsePiece(pieces[i]) case Some(r) => [r] case None => [])
      + PieceRecords(pieces[i + 1..])
  {
    var xs := Parses(pieces);
    SomesAround(xs, i);
    MapSlice(ParsePiece, pieces, 0, i);
    MapSlice(ParsePiece, pieces, i + 1, |pieces|);
    assert pieces[0..i] == pieces[..i] && xs[0..i] == xs[..i];
    assert pieces[i + 1..|pieces|] == pieces[i + 1..] && xs[i + 1..|xs|] == xs[i + 1..];
  }

  /** `extract_sections` from the split on: split, drop a blank first piece
      (`raw_sections.pop(0)`), then keep one record per piece that has a
      section heading in its first 150 characters. */
  method ExtractSections(fullText: string) returns (sections: seq<SectionRecord>)
    ensures sections == PieceRecords(RawSections(fullText))
  {
    var rawSections := SplitSections(fullText);
    if IsBlank(rawSections[0]) {
      rawSections := rawSections[1..];
    }
    sections := CollectRecords(rawSections);
  }

  /** The `for sec in raw_sections` loop: each piece is parsed, skipped with
      `continue` when it has no heading, and appended otherwise. */
  method CollectRecords(rawSections: seq<string>) returns (sections: seq<SectionRecord>)
    ensures sections == PieceRecords(rawSections)
  {
    sections := [];
    for i := 0 to |rawSections|
      invariant sections == PieceRecords(rawSections[..i])
    {
      var sec := rawSections[i];
      var secIdMatch := ParsePiece(sec);
      SomesMapSnoc(ParsePiece, rawSections, i);
      if secIdMatch.None? {
        continue;
      }
      sections := sections + [secIdMatch.value];
    }
    assert rawSections[..|rawSections|] == rawSections;
  }
}
