/** Python's `re.split` with a zero-width lookahead, as `extract_sections`
    in backend/ingest.py applies it to the statute text. */
module SectionSplit {
  import opened PyText
  import opened SectionPattern

  /** The pieces of `s[start..]` cut at each of the positions `cuts`. */
  function CutFrom(s: string, start: nat, cuts: seq<nat>): (pieces: seq<string>)
    requires start <= |s|
    requires ValidCuts(|s|, start, cuts)
    ensures |pieces| == |cuts| + 1
    decreases |cuts|
  {
    if cuts == [] then [s[start..]]
    else [s[start..cuts[0]]] + CutFrom(s, cuts[0], cuts[1..])
  }

  /** The pieces of a cut concatenate back to the text they were cut from. */
  lemma {:induction false} CutFromConcat(s: string, start: nat, cuts: seq<nat>)
    requires start <= |s|
    requires ValidCuts(|s|, start, cuts)
    ensures Concat(CutFrom(s, start, cuts)) == s[start..]
    decreases |cuts|
  {
    if cuts != [] {
      var rest := CutFrom(s, cuts[0], cuts[1..]);
      CutFromConcat(s, cuts[0], cuts[1..]);
      assert ([s[start..cuts[0]]] + rest)[1..] == rest;
      assert s[start..] == s[start..cuts[0]] + s[cuts[0]..];
    }
  }

  /** `re.split(r"(?i)(?=\bsection\s+\d+)", full_text)`: the text cut at every
      position where the lookahead matches; a match at position 0 yields an
      empty first piece, as Python's `re.split` does. */
  function SplitSections(fullText: string): (pieces: seq<string>)
    ensures |pieces| >= 1
  {
    CutFrom(fullText, 0, SplitPoints(fullText, 0))
  }

  /** Piece `k` of a cut is the text between cut `k - 1` (or `start`) and
      cut `k` (or the end). */
  function PieceStart(start: nat, cuts: seq<nat>, k: nat): nat
    requires k <= |cuts|
  {
    if k == 0 then start else cuts[k - 1]
  }

  function PieceEnd(len: nat, cuts: seq<nat>, k: nat): nat
    requires k <= |cuts|
  {
    if k < |cuts| then cuts[k] else len
  }

  lemma {:induction false} CutFromPiece(s: string, start: nat, cuts: seq<nat>, k: nat)
    requires start <= |s|
    requires ValidCuts(|s|, start, cuts)
    requires k <= |cuts|
    ensures PieceStart(start, cuts, k) <= PieceEnd(|s|, cuts, k) <= |s|
    ensures CutFrom(s, start, cuts)[k] == s[PieceStart(start, cuts, k)..PieceEnd(|s|, cuts, k)]
    decreases |cuts|
  {
    if cuts != [] && k > 0 {
      CutFromPiece(s, cuts[0], cuts[1..], k - 1);
    }
  }

  /** Piece `k` of the split is the text between the split positions
      around it. */
  lemma SplitPiece(fullText: string, k: nat)
    requires k < |SplitSections(fullText)|
    ensures var cuts := SplitPoints(fullText, 0);
      && PieceStart(0, cuts, k) <= PieceEnd(|fullText|, cuts, k) <= |fullText|
      && SplitSections(fullText)[k] == fullText[PieceStart(0, cuts, k)..PieceEnd(|fullText|, cuts, k)]
  {
    CutFromPiece(fullText, 0, SplitPoints(fullText, 0), k);
  }

  /** Concatenating the raw pieces gives back `full_text` exactly. */
  lemma SplitRoundTrip(fullText: string)
    ensures Concat(SplitSections(fullText)) == fullText
  {
    CutFromConcat(fullText, 0, SplitPoints(fullText, 0));
    assert fullText[0..] == fullText;
  }

  /** Every piece after the first starts with a heading (`section`, then
      whitespace, then a digit, ignoring case), and a word boundary precedes
      it: the previous piece is empty or ends in a non-word character. The
      previous piece is empty only when it is the first one. */
  lemma SplitPiecesStartWithHeading(fullText: string, k: nat)
    requires 1 <= k < |SplitSections(fullText)|
    ensures var pieces := SplitSections(fullText);
      && HeadingAt(pieces[k], 0)
      && (pieces[k - 1] == [] ==> k == 1)
      && (pieces[k - 1] != [] ==> !IsWordChar(pieces[k - 1][|pieces[k - 1]| - 1]))
  {
    SplitPieceHeading(fullText, k);
    SplitPieceBoundary(fullText, k);
  }

  lemma SplitPieceHeading(fullText: string, k: nat)
    requires 1 <= k < |SplitSections(fullText)|
    ensures HeadingAt(SplitSections(fullText)[k], 0)
  {
    SplitPiece(fullText, k);
    CutPieceStartsWithHeading(fullText, k);
  }

  lemma SplitPieceBoundary(fullText: string, k: nat)
    requires 1 <= k < |SplitSections(fullText)|
    ensures var prev := SplitSections(fullText)[k - 1];
      && (prev == [] ==> k == 1)
      && (prev != [] ==> !IsWordChar(prev[|prev| - 1]))
  {
    SplitPiece(fullText, k - 1);
    CutPieceBoundary(fullText, k);
  }

  /** The text from cut `k - 1` to the next cut starts with a heading. */
  lemma CutPieceStartsWithHeading(s: string, k: nat)
    requires 1 <= k <= |SplitPoints(s, 0)|
    ensures var cuts := SplitPoints(s, 0);
      && PieceStart(0, cuts, k) <= PieceEnd(|s|, cuts, k) <= |s|
      && HeadingAt(s[PieceStart(0, cuts, k)..PieceEnd(|s|, cuts, k)], 0)
  {
    var cuts := SplitPoints(s, 0);
    var c := cuts[k - 1];
    var hi := PieceEnd(|s|, cuts, k);
    assert PieceStart(0, cuts, k) == c;
    SplitPointHeading(s, k - 1);
    HeadingAtSpec(s, c);
    if k < |cuts| {
      SplitPointHeading(s, k);
      assert c < cuts[k];
      NoHeadingInsideHeading(s, c, cuts[k]);
    }
    assert NumberStart(s, c) < hi;
    HeadingInfix(s, c, hi, 0);
  }

  /** The text before cut `k - 1` is empty only for the first piece, and
      otherwise ends in a non-word character. */
  lemma CutPieceBoundary(s: string, k: nat)
    requires 1 <= k <= |SplitPoints(s, 0)|
    ensures var cuts := SplitPoints(s, 0);
      && PieceStart(0, cuts, k - 1) <= PieceEnd(|s|, cuts, k - 1) <= |s|
      && var prev := s[PieceStart(0, cuts, k - 1)..PieceEnd(|s|, cuts, k - 1)];
      && (prev == [] ==> k == 1)
      && (prev != [] ==> !IsWordChar(prev[|prev| - 1]))
  {
    var cuts := SplitPoints(s, 0);
    var c := cuts[k - 1];
    var lo := PieceStart(0, cuts, k - 1);
    assert PieceEnd(|s|, cuts, k - 1) == c;
    SplitPointBoundary(s, k - 1);
    if k >= 2 {
      assert cuts[k - 2] < cuts[k - 1];
    }
    if lo < c {
      assert s[lo..c][c - lo - 1] == s[c - 1];
    }
  }

  /** The split misses no heading: a heading inside a piece, other than at
      the start of a later piece, is glued to a preceding word character. */
  lemma SplitMissesNoHeading(fullText: string, k: nat, j: nat)
    requires k < |SplitSections(fullText)|
    requires j < |SplitSections(fullText)[k]| && (k == 0 || j > 0)
    requires HeadingAt(SplitSections(fullText)[k], j)
    ensures j > 0 && IsWordChar(SplitSections(fullText)[k][j - 1])
  {
    SplitPiece(fullText, k);
    PieceMissesNoHeading(fullText, k, j);
  }

  /** `SplitMissesNoHeading` for the text between two cuts. */
  lemma PieceMissesNoHeading(s: string, k: nat, j: nat)
    requires k <= |SplitPoints(s, 0)|
    ensures var lo, hi := PieceStart(0, SplitPoints(s, 0), k), PieceEnd(|s|, SplitPoints(s, 0), k);
      lo <= hi <= |s| && lo + j < hi && (k == 0 || j > 0) && HeadingAt(s[lo..hi], j) ==>
        j > 0 && IsWordChar(s[lo..hi][j - 1])
  {
    var lo, hi := PieceStart(0, SplitPoints(s, 0), k), PieceEnd(|s|, SplitPoints(s, 0), k);
    if lo <= hi <= |s| && lo + j < hi && (k == 0 || j > 0) {
      HeadingInfix(s, lo, hi, j);
      HeadingGluedInPiece(s, k, lo + j);
      if j > 0 {
        WordCharInInfix(s, lo, hi, j - 1);
      }
    }
  }

  /** A heading inside piece `k`, other than at its start when `k > 0`, is
      not a split position, so a word character precedes it. */
  lemma HeadingGluedInPiece(s: string, k: nat, p: nat)
    requires k <= |SplitPoints(s, 0)|
    requires PieceStart(0, SplitPoints(s, 0), k) <= p < PieceEnd(|s|, SplitPoints(s, 0), k)
    requires k == 0 || SplitPoints(s, 0)[k - 1] < p
    ensures HeadingAt(s, p) ==> p > 0 && IsWordChar(s[p - 1])
  {
    NoCutInsidePiece(|s|, SplitPoints(s, 0), k, p);
    SplitPointsExactly(s, p);
  }

  lemma WordCharInInfix(s: string, lo: nat, hi: nat, i: nat)
    requires lo <= hi <= |s| && lo + i < hi
    ensures IsWordChar(s[lo..hi][i]) <==> IsWordChar(s[lo + i])
  {
    assert s[lo..hi][i] == s[lo + i];
  }

  /** Cuts are strictly increasing, so none lies strictly inside a piece. */
  lemma NoCutInsidePiece(len: nat, cuts: seq<nat>, k: nat, p: nat)
    requires ValidCuts(len, 0, cuts)
    requires k <= |cuts|
    requires k == 0 || cuts[k - 1] < p
    requires k < |cuts| ==> p < cuts[k]
    ensures p !in cuts
  {
    forall m | 0 <= m < |cuts|
      ensures cuts[m] != p
    {
      if m < k {
        assert cuts[m] <= cuts[k - 1];
      } else {
        assert cuts[k] <= cuts[m];
      }
    }
  }
}
