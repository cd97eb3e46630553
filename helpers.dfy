/** The text helpers of backend/utils/helpers.py. */
module Helpers {
  import opened PyText
  import opened Records

  /** Every whitespace character is a plain space, and no two whitespace
      characters are adjacent. */
  predicate SingleSpaced(s: string) {
    && (forall i :: 0 <= i < |s| && IsSpace(s[i]) ==> s[i] == ' ')
    && (forall i :: 0 <= i < |s| - 1 && IsSpace(s[i]) ==> !IsSpace(s[i + 1]))
  }

  /** No whitespace at either end (what `str.strip()` leaves). */
  predicate Trimmed(s: string) {
    s == [] || (!IsSpace(s[0]) && !IsSpace(s[|s| - 1]))
  }

  /** `re.sub(r'\s+', ' ', s)`: every maximal whitespace run becomes one space.
      The result is single-spaced, keeps the non-whitespace characters, and
      starts with a space exactly where `s` starts with whitespace;
      `CollapseSpacesEnd` and `CollapseSpacesWords` add the same for the end
      and that it keeps the words. */
  function CollapseSpaces(s: string): (r: string)
    ensures SingleSpaced(r)
    ensures NonSpace(r) == NonSpace(s)
    ensures r == [] <==> s == []
    ensures (r != [] && IsSpace(r[0])) <==> (s != [] && IsSpace(s[0]))
    decreases |s|
  {
    if s == [] then []
    else if IsSpace(s[0]) then
      var rest := LStrip(s);
      var tail := CollapseSpaces(rest);
      CollapseRunNonSpace(s, rest, tail);
      SingleSpacedCons(' ', tail);
      [' '] + tail
    else
      var tail := CollapseSpaces(s[1..]);
      CollapseCharNonSpace(s, tail);
      SingleSpacedCons(s[0], tail);
      [s[0]] + tail
  }

  /** The substitution keeps the words of `s`: with `SingleSpaced`, one
      plain space stands between two consecutive words of `s` in the result
      exactly where whitespace separates them in `s`. */
  lemma {:induction false} CollapseSpacesWords(s: string)
    ensures Words(CollapseSpaces(s)) == Words(s)
    decreases |s|
  {
    if s != [] {
      if IsSpace(s[0]) {
        var rest := LStrip(s);
        CollapseSpacesWords(rest);
        CollapseRunWords(s, rest, CollapseSpaces(rest));
      } else {
        CollapseSpacesWords(s[1..]);
        CollapseCharWords(s, CollapseSpaces(s[1..]));
      }
    }
  }

  /** The result ends with a space exactly where `s` ends with whitespace. */
  lemma {:induction false} CollapseSpacesEnd(s: string)
    ensures var r := CollapseSpaces(s);
      (r != [] && IsSpace(r[|r| - 1])) <==> (s != [] && IsSpace(s[|s| - 1]))
    decreases |s|
  {
    if s != [] {
      if IsSpace(s[0]) {
        var rest := LStrip(s);
        CollapseSpacesEnd(rest);
        CollapseRunEnd(s, rest, CollapseSpaces(rest));
      } else {
        CollapseSpacesEnd(s[1..]);
        CollapseCharEnd(s, CollapseSpaces(s[1..]));
      }
    }
  }

  /** The whitespace run that starts `s` becomes one space in front of the
      substituted rest, `tail`, without changing the non-whitespace
      characters, ... */
  lemma CollapseRunNonSpace(s: string, rest: string, tail: string)
    requires s != [] && IsSpace(s[0]) && rest == LStrip(s)
    requires NonSpace(tail) == NonSpace(rest)
    ensures NonSpace([' '] + tail) == NonSpace(s)
  {
    LStripKeepsNonSpace(s);
    NonSpaceCons(' ', tail);
  }

  /** ... the words ... */
  lemma CollapseRunWords(s: string, rest: string, tail: string)
    requires s != [] && IsSpace(s[0]) && rest == LStrip(s)
    requires Words(tail) == Words(rest)
    ensures Words([' '] + tail) == Words(s)
  {
    WordsBlankPrefix([' '], tail);
    WordsLStrip(s);
  }

  /** ... nor the kind of the last character. */
  lemma CollapseRunEnd(s: string, rest: string, tail: string)
    requires s != [] && IsSpace(s[0]) && rest == LStrip(s)
    requires tail == [] <==> rest == []
    requires (tail != [] && IsSpace(tail[|tail| - 1])) <==> (rest != [] && IsSpace(rest[|rest| - 1]))
    ensures tail == [] ==> IsSpace(s[|s| - 1])
    ensures tail != [] ==> (IsSpace(tail[|tail| - 1]) <==> IsSpace(s[|s| - 1]))
  {
    if rest == [] {
      assert s[..|s| - |rest|] == s;
    } else {
      assert s[|s| - 1] == rest[|rest| - 1];
    }
  }

  /** A non-whitespace first character of `s` goes in front of the
      substituted rest, `tail`, without changing the non-whitespace
      characters, ... */
  lemma CollapseCharNonSpace(s: string, tail: string)
    requires s != [] && !IsSpace(s[0])
    requires NonSpace(tail) == NonSpace(s[1..])
    ensures NonSpace([s[0]] + tail) == NonSpace(s)
  {
    NonSpaceCons(s[0], tail);
  }

  /** ... the last character ... */
  lemma CollapseCharEnd(s: string, tail: string)
    requires s != [] && !IsSpace(s[0])
    requires tail == [] <==> s[1..] == []
    requires (tail != [] && IsSpace(tail[|tail| - 1])) <==> (s[1..] != [] && IsSpace(s[1..][|s[1..]| - 1]))
    ensures var r := [s[0]] + tail; IsSpace(r[|r| - 1]) <==> IsSpace(s[|s| - 1])
  {
    if tail != [] {
      assert s[|s| - 1] == s[1..][|s[1..]| - 1];
    }
  }

  /** ... and the words. */
  lemma CollapseCharWords(s: string, tail: string)
    requires s != [] && !IsSpace(s[0])
    requires Words(tail) == Words(s[1..]) && (tail == [] <==> s[1..] == [])
    requires (tail != [] && IsSpace(tail[0])) <==> (s[1..] != [] && IsSpace(s[1..][0]))
    ensures Words([s[0]] + tail) == Words(s)
  {
    assert s == [s[0]] + s[1..];
    WordsCons(s[0], tail);
    WordsCons(s[0], s[1..]);
  }

  lemma SingleSpacedCons(c: char, s: string)
    requires SingleSpaced(s)
    requires IsSpace(c) ==> c == ' ' && (s == [] || !IsSpace(s[0]))
    ensures SingleSpaced([c] + s)
  {
    var t := [c] + s;
    assert forall k :: 1 <= k < |t| ==> t[k] == s[k - 1];
  }

  lemma NonSpaceCons(c: char, s: string)
    ensures NonSpace([c] + s) == (if IsSpace(c) then [] else [c]) + NonSpace(s)
  {
    assert ([c] + s)[1..] == s;
  }

  /** `clean_text(text)`: `re.sub(r'\s+', ' ', text).strip()`. The result is
      `" ".join(text.split())`: the words of `text`, in order, with one plain
      space between two of them; so it has no whitespace at its ends, only
      single spaces inside, and the non-whitespace characters of `text`. */
  function CleanText(text: string): (r: string)
    ensures r == Join(" ", Words(text))
    ensures Trimmed(r)
    ensures SingleSpaced(r)
    ensures NonSpace(r) == NonSpace(text)
  {
    var c := CollapseSpaces(text);
    StripKeepsNonSpace(c);
    StripKeepsSingleSpaced(c);
    CollapsedWordsJoined(text);
    Strip(c)
  }

  /** Stripping the substituted text leaves the words of `text` joined by
      single spaces. */
  lemma CollapsedWordsJoined(text: string)
    ensures Strip(CollapseSpaces(text)) == Join(" ", Words(text))
  {
    var c := CollapseSpaces(text);
    var t := Strip(c);
    assert Words(t) == Words(text) by {
      CollapseSpacesWords(text);
      WordsStrip(c);
    }
    assert t == Join(" ", Words(t)) by {
      StripKeepsSingleSpaced(c);
      SingleSpacedWords(t);
    }
  }

  /** A trimmed, single-spaced text is its own words joined by single
      spaces. */
  lemma {:induction false} SingleSpacedWords(r: string)
    requires Trimmed(r) && SingleSpaced(r)
    ensures r == Join(" ", Words(r))
    decreases |r|
  {
    if r != [] {
      var n := WordLength(r);
      if n == |r| {
        assert r[..n] == r && r[n..] == [];
      } else {
        var rest := r[n + 1..];
        WordGap(r, n);
        SingleSpacedWords(rest);
        WordsAfterGap(r, n);
        JoinCons(" ", r[..n], Words(rest));
        assert r == r[..n] + " " + rest;
      }
    }
  }

  /** In a trimmed, single-spaced text, a first word that is not the whole
      text is followed by one space and a trimmed, single-spaced rest. */
  lemma WordGap(r: string, n: nat)
    requires Trimmed(r) && SingleSpaced(r) && r != []
    requires n == WordLength(r) && n < |r|
    ensures n + 1 < |r| && r[n] == ' '
    ensures Trimmed(r[n + 1..]) && SingleSpaced(r[n + 1..])
  {
    assert IsSpace(r[n]);
    assert !IsSpace(r[n + 1]);
    SingleSpacedSlice(r, n + 1, |r|);
  }

  lemma WordsAfterGap(r: string, n: nat)
    requires r != [] && !IsSpace(r[0])
    requires n == WordLength(r) && n + 1 < |r| && r[n] == ' ' && !IsSpace(r[n + 1])
    ensures Words(r) == [r[..n]] + Words(r[n + 1..])
    ensures Words(r[n + 1..]) != []
  {
    assert r[n..] == [' '] + r[n + 1..];
    WordsBlankPrefix([' '], r[n + 1..]);
  }

  lemma StripKeepsSingleSpaced(s: string)
    requires SingleSpaced(s)
    ensures SingleSpaced(Strip(s))
  {
    StripInfix(s);
    var i, j :| 0 <= i <= j <= |s| && Strip(s) == s[i..j] && IsBlank(s[..i]) && IsBlank(s[j..]);
    SingleSpacedSlice(s, i, j);
  }

  lemma SingleSpacedSlice(s: string, i: nat, j: nat)
    requires i <= j <= |s| && SingleSpaced(s)
    ensures SingleSpaced(s[i..j])
  {
    var t := s[i..j];
    forall k | 0 <= k < |t| && IsSpace(t[k])
      ensures t[k] == ' '
    {
      assert t[k] == s[i + k];
    }
    forall k | 0 <= k < |t| - 1 && IsSpace(t[k])
      ensures !IsSpace(t[k + 1])
    {
      assert t[k] == s[i + k] && t[k + 1] == s[i + k + 1];
    }
  }

  /** A single-spaced string is left alone by the whitespace substitution. */
  lemma {:induction false} CollapseFixesSingleSpaced(s: string)
    requires SingleSpaced(s)
    ensures CollapseSpaces(s) == s
    decreases |s|
  {
    if s != [] {
      SingleSpacedTail(s);
      CollapseFixesSingleSpaced(s[1..]);
      CollapseHead(s);
      assert s == [s[0]] + s[1..];
    }
  }

  /** On a single-spaced text the substitution keeps the first character
      and goes on with the rest. */
  lemma CollapseHead(s: string)
    requires s != [] && SingleSpaced(s)
    ensures CollapseSpaces(s) == [s[0]] + CollapseSpaces(s[1..])
  {
    if IsSpace(s[0]) {
      assert s[0] == ' ';
      LStripOneSpace(s);
    }
  }

  lemma SingleSpacedTail(s: string)
    requires s != [] && SingleSpaced(s)
    ensures SingleSpaced(s[1..])
  {
    var t := s[1..];
    assert forall k :: 0 <= k < |t| ==> t[k] == s[k + 1];
  }

  lemma LStripOneSpace(s: string)
    requires s != [] && IsSpace(s[0]) && (|s| == 1 || !IsSpace(s[1]))
    ensures LStrip(s) == s[1..]
  {
    assert s[1..] == [] || s[1..][0] == s[1];
  }

  /** `clean_text` is idempotent. */
  lemma CleanTextIdempotent(text: string)
    ensures CleanText(CleanText(text)) == CleanText(text)
  {
    var c := CleanText(text);
    CollapseFixesSingleSpaced(c);
    StripUntrimmed(c);
  }

  /** `truncate_text(text, max_length)`: `text[:max_length] + "..."` when
      `len(text) > max_length`, otherwise `text`. */
  function TruncateText(text: string, maxLength: int): (r: string)
    ensures |text| <= maxLength ==> r == text
    ensures |text| > maxLength ==> r == Take(text, maxLength) + "..."
    ensures |text| > maxLength && maxLength >= 0 ==> |r| == maxLength + 3 && r[..maxLength] == text[..maxLength]
    ensures r[..|Take(text, maxLength)|] == Take(text, maxLength)
  {
    if |text| > maxLength then Take(text, maxLength) + "..." else text
  }

  /** A non-negative limit makes truncation idempotent: a truncated text is
      cut at the same place again and gets the same ellipsis. */
  lemma TruncateTextIdempotent(text: string, maxLength: int)
    requires maxLength >= 0
    ensures TruncateText(TruncateText(text, maxLength), maxLength) == TruncateText(text, maxLength)
  {
    if |text| > maxLength {
      var r := TruncateText(text, maxLength);
      assert r[..maxLength] == text[..maxLength];
    }
  }

  /** With a negative limit the length test always passes, so the second
      truncation cuts again: `truncate_text` is not idempotent there. */
  lemma TruncateTextNegativeLimit()
    ensures TruncateText("ab", -1) == "a..."
    ensures TruncateText(TruncateText("ab", -1), -1) == "a....."
  {
  }

  /** `format_ipc_citation(section)`: `"IPC Section {section_id}: {title}"`. */
  function FormatIpcCitation(section: SectionRecord): (r: string)
    ensures r == FormatLegalCitation(RetrievalResult("IPC", section.sectionId, section.title, section.content, 0.0))
  {
    "IPC Section " + section.sectionId + ": " + section.title
  }

  /** `format_legal_citation(section)`: `"{doc_type} Section {section_id}: {title}"`. */
  function FormatLegalCitation(section: RetrievalResult): (r: string)
    ensures |r| == |section.docType| + |section.sectionId| + |section.title| + 11
    ensures r[..|section.docType|] == section.docType
    ensures OccursAt(r, " Section " + section.sectionId + ": ", |section.docType|)
    ensures r[|r| - |section.title|..] == section.title
  {
    section.docType + " Section " + section.sectionId + ": " + section.title
  }

  /** The IPC citation is the generic citation of any hit tagged `"IPC"`,
      whatever its content and score. */
  lemma IpcCitationIsLegalCitation(hit: RetrievalResult)
    requires hit.docType == "IPC"
    ensures FormatIpcCitation(SectionRecord(hit.sectionId, hit.title, hit.content)) == FormatLegalCitation(hit)
  {
  }
}
