/** The three regular expressions of backend/ingest.py, written out as
    character predicates and searches:
    - the split lookahead `(?i)(?=\bsection\s+\d+)` is `SplitAt`;
    - the id search `section\s+(\d+)` (case-insensitive, no word boundary)
      is `HeadingAt` with `FirstHeading`;
    - the title end `[:\.]\s*\n?` is `FindPunct` followed by `SkipSpaces`:
      the greedy `\s*` already takes every newline, so `\n?` matches empty. */
module SectionPattern {
  import opened PyText
  import opened Lists

  /** `c` is the lower-case ASCII letter `lower` or its upper-case form. */
  predicate FoldsTo(c: char, lower: char) {
    c == lower || c as int + 32 == lower as int
  }

  /** `s[p:p+7]` is `section` up to ASCII case. */
  predicate KeywordAt(s: string, p: nat) {
    && p + 7 <= |s|
    && FoldsTo(s[p], 's') && FoldsTo(s[p + 1], 'e') && FoldsTo(s[p + 2], 'c')
    && FoldsTo(s[p + 3], 't') && FoldsTo(s[p + 4], 'i') && FoldsTo(s[p + 5], 'o')
    && FoldsTo(s[p + 6], 'n')
  }

  /** The first index at or after `i` that is not whitespace (or `|s|`). */
  function SkipSpaces(s: string, i: nat): (j: nat)
    requires i <= |s|
    ensures i <= j <= |s|
    ensures forall k :: i <= k < j ==> IsSpace(s[k])
    ensures j == |s| || !IsSpace(s[j])
    decreases |s| - i
  {
    if i < |s| && IsSpace(s[i]) then SkipSpaces(s, i + 1) else i
  }

  /** The whitespace skipped after `i` does not change the strip of the
      text before it. */
  lemma StripSkippedSpaces(s: string, i: nat)
    requires i <= |s|
    ensures Strip(Take(s, SkipSpaces(s, i))) == Strip(s[..i])
  {
    StripBlankGap(s, i, SkipSpaces(s, i));
  }

  /** The first index at or after `i` that is not a digit (or `|s|`). */
  function DigitRunEnd(s: string, i: nat): (j: nat)
    requires i <= |s|
    ensures i <= j <= |s|
    ensures forall k :: i <= k < j ==> IsDigit(s[k])
    ensures j == |s| || !IsDigit(s[j])
    decreases |s| - i
  {
    if i < |s| && IsDigit(s[i]) then DigitRunEnd(s, i + 1) else i
  }

  /** Where the number of a heading at `p` starts: after `section` and the
      whitespace run that follows it. */
  function NumberStart(s: string, p: nat): nat
    requires p + 7 <= |s|
  {
    SkipSpaces(s, p + 7)
  }

  /** `\s+\d` matches at `i`: a whitespace run, then a digit. */
  predicate SpacesThenDigit(s: string, i: nat)
    decreases |s| - i
  {
    && i + 1 < |s| && IsSpace(s[i])
    && (IsDigit(s[i + 1]) || SpacesThenDigit(s, i + 1))
  }

  /** `section\s+\d` matches at `p`, ignoring ASCII case. */
  predicate HeadingAt(s: string, p: nat) {
    KeywordAt(s, p) && SpacesThenDigit(s, p + 7)
  }

  /** `\s+` must take the whole whitespace run, since a digit is never
      whitespace: the digit is where skipping the run stops. */
  lemma {:induction false} SpacesThenDigitSpec(s: string, i: nat)
    requires i <= |s|
    ensures SpacesThenDigit(s, i) <==> var q := SkipSpaces(s, i); q > i && q < |s| && IsDigit(s[q])
    decreases |s| - i
  {
    if i + 1 < |s| && IsSpace(s[i]) {
      SpacesThenDigitSpec(s, i + 1);
    }
  }

  lemma HeadingAtSpec(s: string, p: nat)
    requires p + 7 <= |s|
    ensures HeadingAt(s, p) <==> KeywordAt(s, p) && var q := NumberStart(s, p); q > p + 7 && q < |s| && IsDigit(s[q])
  {
    SpacesThenDigitSpec(s, p + 7);
  }

  /** The split lookahead `\bsection\s+\d+` matches at `p`: a heading with a
      word boundary before it (the heading starts with a word character). */
  predicate SplitAt(s: string, p: nat) {
    HeadingAt(s, p) && (p == 0 || !IsWordChar(s[p - 1]))
  }

  /** Inside a heading at `c`, up to its first digit, no character folds to
      `s`, so no other heading can start there. */
  lemma NoHeadingInsideHeading(s: string, c: nat, p: nat)
    requires c < p
    ensures HeadingAt(s, c) && HeadingAt(s, p) ==> NumberStart(s, c) < p
  {
    if c + 7 <= |s| {
      HeadingAtSpec(s, c);
    }
  }

  /** Skipping whitespace inside an infix `s[lo..hi]` stops where it stops in
      `s`, or at the end of the infix. */
  lemma {:induction false} SkipSpacesInfix(s: string, lo: nat, hi: nat, i: nat)
    requires lo <= i <= hi <= |s|
    ensures SkipSpaces(s[lo..hi], i - lo) == Min(SkipSpaces(s, i), hi) - lo
    decreases hi - i
  {
    var t := s[lo..hi];
    if i < hi {
      assert t[i - lo] == s[i];
      if IsSpace(s[i]) {
        SkipSpacesInfix(s, lo, hi, i + 1);
      }
    }
  }

  lemma KeywordInfix(s: string, lo: nat, hi: nat, j: nat)
    requires lo <= hi <= |s| && lo + j + 7 <= hi
    ensures KeywordAt(s[lo..hi], j) <==> KeywordAt(s, lo + j)
  {
    var t := s[lo..hi];
    assert forall i :: j <= i < j + 7 ==> t[i] == s[lo + i];
  }

  /** A heading of `s` at `lo + j` whose first digit lies before `hi` is a
      heading of the infix `s[lo..hi]` at `j`, and conversely. */
  lemma HeadingInfix(s: string, lo: nat, hi: nat, j: nat)
    requires lo <= hi <= |s| && lo + j < hi
    ensures HeadingAt(s[lo..hi], j) ==> HeadingAt(s, lo + j)
    ensures HeadingAt(s, lo + j) && NumberStart(s, lo + j) < hi ==> HeadingAt(s[lo..hi], j)
  {
    if lo + j + 7 <= hi {
      KeywordInfix(s, lo, hi, j);
      SkipSpacesInfix(s, lo, hi, lo + j + 7);
      HeadingOfInfix(s, lo, hi, j);
      HeadingToInfix(s, lo, hi, j);
    }
  }

  lemma HeadingOfInfix(s: string, lo: nat, hi: nat, j: nat)
    requires lo <= hi <= |s| && lo + j + 7 <= hi
    requires KeywordAt(s[lo..hi], j) <==> KeywordAt(s, lo + j)
    requires SkipSpaces(s[lo..hi], j + 7) == Min(SkipSpaces(s, lo + j + 7), hi) - lo
    ensures HeadingAt(s[lo..hi], j) ==> HeadingAt(s, lo + j)
  {
    var t := s[lo..hi];
    HeadingAtSpec(s, lo + j);
    HeadingAtSpec(t, j);
    var q := SkipSpaces(s, lo + j + 7);
    if q < hi {
      assert t[q - lo] == s[q];
    }
  }

  lemma HeadingToInfix(s: string, lo: nat, hi: nat, j: nat)
    requires lo <= hi <= |s| && lo + j + 7 <= hi
    requires KeywordAt(s[lo..hi], j) <==> KeywordAt(s, lo + j)
    requires SkipSpaces(s[lo..hi], j + 7) == Min(SkipSpaces(s, lo + j + 7), hi) - lo
    ensures HeadingAt(s, lo + j) && NumberStart(s, lo + j) < hi ==> HeadingAt(s[lo..hi], j)
  {
    var t := s[lo..hi];
    HeadingAtSpec(s, lo + j);
    HeadingAtSpec(t, j);
    var q := SkipSpaces(s, lo + j + 7);
    if q < hi {
      assert t[q - lo] == s[q];
    }
  }

  lemma {:induction false} DigitRunPrefix(s: string, n: nat, i: nat)
    requires i <= n <= |s|
    requires DigitRunEnd(s, i) <= n
    ensures DigitRunEnd(s[..n], i) == DigitRunEnd(s, i)
    decreases n - i
  {
    if i < n && IsDigit(s[i]) {
      assert s[..n][i] == s[i];
      DigitRunPrefix(s, n, i + 1);
    } else if i < n {
      assert s[..n][i] == s[i];
    }
  }

  /** A heading at the start of `s` whose digit run ends within the first
      `n` characters is a heading of `s[..n]`, with the same digits. */
  lemma HeadingInPrefix(s: string, n: nat)
    requires n <= |s|
    ensures HeadingAt(s, 0) && DigitRunEnd(s, NumberStart(s, 0)) <= n ==>
      && HeadingAt(s[..n], 0)
      && NumberStart(s[..n], 0) == NumberStart(s, 0)
      && DigitRunEnd(s[..n], NumberStart(s, 0)) == DigitRunEnd(s, NumberStart(s, 0))
  {
    if HeadingAt(s, 0) && DigitRunEnd(s, NumberStart(s, 0)) <= n {
      HeadingAtSpec(s, 0);
      var q := NumberStart(s, 0);
      assert q < n && s[0..n] == s[..n];
      HeadingInfix(s, 0, n, 0);
      SkipSpacesInfix(s, 0, n, 7);
      DigitRunPrefix(s, n, q);
    }
  }

  /** `re.search(r"section\s+(\d+)", w, re.IGNORECASE)`: the leftmost
      heading at or after `from`. */
  function FirstHeading(w: string, from: nat): (r: Option<nat>)
    requires from <= |w|
    ensures r.Some? ==> from <= r.value < |w| && HeadingAt(w, r.value)
    ensures r.Some? ==> forall p :: from <= p < r.value ==> !HeadingAt(w, p)
    ensures r.None? ==> forall p :: from <= p ==> !HeadingAt(w, p)
    decreases |w| - from
  {
    if from == |w| then None
    else if HeadingAt(w, from) then Some(from)
    else FirstHeading(w, from + 1)
  }

  /** The first index of `:` or `.` if any. */
  function FindPunct(s: string): (r: Option<nat>)
    ensures r.Some? ==> r.value < |s| && (s[r.value] == ':' || s[r.value] == '.')
    ensures r.Some? ==> forall k :: 0 <= k < r.value ==> s[k] != ':' && s[k] != '.'
    ensures r.None? ==> forall k :: 0 <= k < |s| ==> s[k] != ':' && s[k] != '.'
  {
    if s == [] then None
    else if s[0] == ':' || s[0] == '.' then Some(0)
    else match FindPunct(s[1..])
      case None => None
      case Some(k) => Some(k + 1)
  }

  /** Cut positions into a text of length `len`: strictly increasing, from
      `start` on. */
  predicate ValidCuts(len: nat, start: nat, cuts: seq<nat>) {
    && (forall k :: 0 <= k < |cuts| ==> start <= cuts[k] <= len)
    && (forall j, k :: 0 <= j < k < |cuts| ==> cuts[j] < cuts[k])
  }

  /** The split positions at or after `from`, in increasing order. */
  function SplitPoints(s: string, from: nat): (r: seq<nat>)
    requires from <= |s|
    ensures forall k :: 0 <= k < |r| ==> from <= r[k] < |s|
    ensures forall j, k :: 0 <= j < k < |r| ==> r[j] < r[k]
    decreases |s| - from
  {
    if from == |s| then []
    else (if SplitAt(s, from) then [from] else []) + SplitPoints(s, from + 1)
  }

  /** Every split position is one where the lookahead matches. */
  lemma {:induction false} SplitPointSound(s: string, from: nat, m: nat)
    requires from <= |s| && m < |SplitPoints(s, from)|
    ensures SplitAt(s, SplitPoints(s, from)[m])
    decreases |s| - from
  {
    if from < |s| {
      var head := if SplitAt(s, from) then [from] else [];
      var rest := SplitPoints(s, from + 1);
      assert SplitPoints(s, from) == head + rest;
      if m >= |head| {
        SplitPointSound(s, from + 1, m - |head|);
      }
    }
  }

  /** Every position where the lookahead matches is a split position. */
  lemma {:induction false} SplitPointComplete(s: string, from: nat, p: nat)
    requires from <= p < |s| && SplitAt(s, p)
    ensures p in SplitPoints(s, from)
    decreases |s| - from
  {
    var head := if SplitAt(s, from) then [from] else [];
    var rest := SplitPoints(s, from + 1);
    assert SplitPoints(s, from) == head + rest;
    if p > from {
      SplitPointComplete(s, from + 1, p);
      assert p in rest;
    }
  }

  /** The two halves of `SplitPointSound`, for proofs that need only one. */
  lemma SplitPointHeading(s: string, m: nat)
    requires m < |SplitPoints(s, 0)|
    ensures HeadingAt(s, SplitPoints(s, 0)[m])
  {
    SplitPointSound(s, 0, m);
  }

  lemma SplitPointBoundary(s: string, m: nat)
    requires m < |SplitPoints(s, 0)|
    ensures var p := SplitPoints(s, 0)[m]; p == 0 || !IsWordChar(s[p - 1])
  {
    SplitPointSound(s, 0, m);
  }

  /** A position is a split position exactly when the lookahead matches there. */
  lemma SplitPointsExactly(s: string, p: nat)
    requires p < |s|
    ensures p in SplitPoints(s, 0) <==> SplitAt(s, p)
  {
    if SplitAt(s, p) {
      SplitPointComplete(s, 0, p);
    }
    if p in SplitPoints(s, 0) {
      var m :| 0 <= m < |SplitPoints(s, 0)| && SplitPoints(s, 0)[m] == p;
      SplitPointSound(s, 0, m);
    }
  }
}
