/** Python `str` built-ins the courtroom code relies on, modelled over `seq<char>`.

    Character classes are the ASCII part of Python's: whitespace is what both
    `str.isspace` and the regex class `\s` accept below U+0080, digits are
    `0`-`9`, word characters are ASCII letters, digits and `_`, and case folding
    is ASCII case folding. */
module PyText {

  /** Python whitespace (`str.isspace`, regex `\s`), ASCII part: space, \t, \n,
      \v, \f, \r and the four separators \x1c-\x1f. */
  predicate IsSpace(c: char) {
    c == ' ' || ('\t' <= c <= '\r') || ('\U{001C}' <= c <= '\U{001F}')
  }

  predicate IsDigit(c: char) { '0' <= c <= '9' }

  predicate IsLower(c: char) { 'a' <= c <= 'z' }

  predicate IsUpper(c: char) { 'A' <= c <= 'Z' }

  /** Regex `\w`, ASCII part. */
  predicate IsWordChar(c: char) { IsLower(c) || IsUpper(c) || IsDigit(c) || c == '_' }

  /** True when `not s.strip()` in Python: `s` is empty or all whitespace. */
  predicate IsBlank(s: string) { forall i :: 0 <= i < |s| ==> IsSpace(s[i]) }

  function Min(a: int, b: int): int { if a <= b then a else b }

  function Max(a: int, b: int): int { if a >= b then a else b }

  /** Python `s[:n]` for any integer `n`; a negative `n` counts from the end. */
  function Take(s: string, n: int): (r: string)
    ensures |r| == if n >= 0 then Min(n, |s|) else Max(0, |s| + n)
    ensures r == s[..|r|]
  {
    if n >= 0 then (if n <= |s| then s[..n] else s)
    else if |s| + n >= 0 then s[..|s| + n]
    else []
  }

  /** `s[i:i+|t|] == t`: `t` occurs in `s` at offset `i`. */
  predicate OccursAt(s: string, t: string, i: int) {
    0 <= i && i + |t| <= |s| && s[i..i + |t|] == t
  }

  /** Python `t in s` for strings. */
  ghost predicate Contains(s: string, t: string) {
    exists i :: OccursAt(s, t, i)
  }

  lemma OccursInMiddle(a: string, b: string, c: string)
    ensures OccursAt(a + b + c, b, |a|)
  {
    assert (a + b + c)[|a|..|a| + |b|] == b;
  }

  lemma OccursWithin(s: string, t: string, i: int, a: string, c: string)
    requires OccursAt(s, t, i)
    ensures OccursAt(a + s + c, t, |a| + i)
  {
    assert (a + s + c)[|a| + i..|a| + i + |t|] == s[i..i + |t|];
  }

  lemma SliceOfPrefix(s: string, n: nat, i: nat, j: nat)
    requires i <= j <= n <= |s|
    ensures s[..n][i..j] == s[i..j]
  {
  }

  lemma PrefixSplit(s: string, i: nat, j: nat)
    requires i <= j <= |s|
    ensures s[..j] == s[..i] + s[i..j]
  {
  }

  /** `s` is `p + m` exactly when it starts with `p` and `m` follows. */
  lemma PrefixedBy(s: string, p: string, m: string)
    ensures s == p + m <==> |p| <= |s| && s[..|p|] == p && s[|p|..] == m
  {
    if |p| <= |s| {
      assert s == s[..|p|] + s[|p|..];
    }
  }

  lemma BlankSlice(s: string, i: nat, j: nat)
    requires i <= j <= |s|
    requires forall k :: i <= k < j ==> IsSpace(s[k])
    ensures IsBlank(s[i..j])
  {
    assert forall k :: 0 <= k < j - i ==> s[i..j][k] == s[i + k];
  }

  /** The characters of `s` that are not whitespace, in order. */
  function NonSpace(s: string): string {
    if s == [] then []
    else (if IsSpace(s[0]) then [] else [s[0]]) + NonSpace(s[1..])
  }

  lemma {:induction false} NonSpaceAppend(a: string, b: string)
    ensures NonSpace(a + b) == NonSpace(a) + NonSpace(b)
  {
    if a == [] {
      assert a + b == b;
    } else {
      assert (a + b)[1..] == a[1..] + b;
      NonSpaceAppend(a[1..], b);
    }
  }

  lemma {:induction false} NonSpaceOfBlank(s: string)
    requires IsBlank(s)
    ensures NonSpace(s) == []
  {
    if s != [] {
      NonSpaceOfBlank(s[1..]);
    }
  }

  /** Python `s.lstrip()`: drops the leading whitespace run. */
  function LStrip(s: string): (r: string)
    ensures |r| <= |s| && r == s[|s| - |r|..]
    ensures IsBlank(s[..|s| - |r|])
    ensures r == [] || !IsSpace(r[0])
  {
    if s != [] && IsSpace(s[0]) then
      var r := LStrip(s[1..]);
      BlankCons(s[0], s[1..][..|s| - 1 - |r|]);
      assert s[..|s| - |r|] == [s[0]] + s[1..][..|s| - 1 - |r|];
      r
    else s
  }

  /** Python `s.rstrip()`: drops the trailing whitespace run. */
  function RStrip(s: string): (r: string)
    ensures |r| <= |s| && r == s[..|r|]
    ensures IsBlank(s[|r|..])
    ensures r == [] || !IsSpace(r[|r| - 1])
  {
    if s != [] && IsSpace(s[|s| - 1]) then
      var r := RStrip(s[..|s| - 1]);
      BlankSnoc(s[..|s| - 1][|r|..], s[|s| - 1]);
      assert s[|r|..] == s[..|s| - 1][|r|..] + [s[|s| - 1]];
      r
    else s
  }

  lemma BlankSnoc(s: string, c: char)
    requires IsBlank(s) && IsSpace(c)
    ensures IsBlank(s + [c])
  {
    assert forall k :: 0 <= k < |s| ==> (s + [c])[k] == s[k];
  }

  lemma BlankCons(c: char, s: string)
    requires IsSpace(c) && IsBlank(s)
    ensures IsBlank([c] + s)
  {
    assert forall k :: 1 <= k <= |s| ==> ([c] + s)[k] == s[k - 1];
  }

  /** Python `s.strip()`: `s` without its leading and trailing whitespace. */
  function Strip(s: string): (r: string)
    ensures r == [] || (!IsSpace(r[0]) && !IsSpace(r[|r| - 1]))
    ensures r == [] <==> IsBlank(s)
  {
    StripBlank(s);
    RStrip(LStrip(s))
  }

  lemma StripBlank(s: string)
    ensures RStrip(LStrip(s)) == [] <==> IsBlank(s)
    ensures var r := RStrip(LStrip(s)); r != [] ==> r[0] == LStrip(s)[0]
  {
    LStripBlank(s);
    RStripEmpty(LStrip(s));
  }

  lemma {:induction false} LStripBlank(s: string)
    ensures LStrip(s) == [] <==> IsBlank(s)
  {
    if s != [] && IsSpace(s[0]) {
      LStripBlank(s[1..]);
      assert IsBlank(s) <==> IsBlank(s[1..]) by {
        assert forall k :: 0 <= k < |s| - 1 ==> s[1..][k] == s[k + 1];
      }
    }
  }

  lemma RStripEmpty(s: string)
    requires s == [] || !IsSpace(s[0])
    ensures RStrip(s) == [] <==> s == []
  {
  }

  lemma BlankAppend(a: string, b: string)
    requires IsBlank(a) && IsBlank(b)
    ensures IsBlank(a + b)
  {
    forall i | 0 <= i < |a + b|
      ensures IsSpace((a + b)[i])
    {
      if i < |a| { assert (a + b)[i] == a[i]; } else { assert (a + b)[i] == b[i - |a|]; }
    }
  }

  /** `Strip(s)` is `s` with a blank prefix and a blank suffix cut off. */
  lemma StripInfix(s: string)
    ensures exists i, j :: 0 <= i <= j <= |s| && Strip(s) == s[i..j] && IsBlank(s[..i]) && IsBlank(s[j..])
  {
    var l := LStrip(s);
    var r := RStrip(l);
    var i := |s| - |l|;
    var j := i + |r|;
    assert l == s[i..];
    assert s[i..j] == l[..|r|] == r;
    assert s[j..] == l[|r|..];
    assert Strip(s) == s[i..j] && IsBlank(s[..i]) && IsBlank(s[j..]);
  }

  /** A string with no whitespace at either end is its own strip. */
  lemma StripUntrimmed(s: string)
    requires s == [] || (!IsSpace(s[0]) && !IsSpace(s[|s| - 1]))
    ensures Strip(s) == s
  {
  }

  /** Stripping keeps every non-whitespace character, in order. */
  lemma StripKeepsNonSpace(s: string)
    ensures NonSpace(Strip(s)) == NonSpace(s)
  {
    LStripKeepsNonSpace(s);
    RStripKeepsNonSpace(LStrip(s));
  }

  lemma {:induction false} LStripKeepsNonSpace(s: string)
    ensures NonSpace(LStrip(s)) == NonSpace(s)
  {
    if s != [] && IsSpace(s[0]) {
      LStripKeepsNonSpace(s[1..]);
    }
  }

  lemma {:induction false} RStripKeepsNonSpace(s: string)
    ensures NonSpace(RStrip(s)) == NonSpace(s)
    decreases |s|
  {
    if s != [] && IsSpace(s[|s| - 1]) {
      var t := s[..|s| - 1];
      RStripKeepsNonSpace(t);
      assert s == t + [s[|s| - 1]];
      NonSpaceAppend(t, [s[|s| - 1]]);
    }
  }

  /** Trailing whitespace does not change a strip. */
  lemma StripBlankSuffix(a: string, b: string)
    requires IsBlank(b)
    ensures Strip(a + b) == Strip(a)
  {
    LStripBlankSuffix(a, b);
    if LStrip(a) != [] {
      RStripBlankSuffix(LStrip(a), b);
    } else {
      LStripBlank(b);
    }
  }

  /** Whitespace between `i` and `j` does not change the strip of a prefix. */
  lemma StripBlankGap(s: string, i: nat, j: nat)
    requires i <= j <= |s|
    requires forall k :: i <= k < j ==> IsSpace(s[k])
    ensures Strip(Take(s, j)) == Strip(s[..i])
  {
    assert Take(s, j) == s[..j];
    PrefixSplit(s, i, j);
    BlankSlice(s, i, j);
    StripBlankSuffix(s[..i], s[i..j]);
  }

  lemma {:induction false} LStripBlankSuffix(a: string, b: string)
    requires IsBlank(b)
    ensures LStrip(a) != [] ==> LStrip(a + b) == LStrip(a) + b
    ensures LStrip(a) == [] ==> LStrip(a + b) == LStrip(b)
  {
    if a != [] && IsSpace(a[0]) {
      assert (a + b)[1..] == a[1..] + b;
      LStripBlankSuffix(a[1..], b);
    } else if a == [] {
      assert a + b == b;
    }
  }

  lemma {:induction false} RStripBlankSuffix(a: string, b: string)
    requires IsBlank(b)
    ensures RStrip(a + b) == RStrip(a)
    decreases |b|
  {
    if b == [] {
      assert a + b == a;
    } else {
      var ab := a + b;
      assert IsSpace(ab[|ab| - 1]) by { assert ab[|ab| - 1] == b[|b| - 1]; }
      assert ab[..|ab| - 1] == a + b[..|b| - 1];
      RStripBlankSuffix(a, b[..|b| - 1]);
    }
  }

  /** ASCII `str.upper()` of one character. */
  function UpperChar(c: char): (u: char)
    ensures !IsLower(u)
    ensures IsLower(c) ==> IsUpper(u)
    ensures !IsLower(c) ==> u == c
  {
    if IsLower(c) then (c as int - 32) as char else c
  }

  /** ASCII `str.lower()` of one character. */
  function LowerChar(c: char): (l: char)
    ensures !IsUpper(l)
    ensures IsUpper(c) ==> IsLower(l)
    ensures !IsUpper(c) ==> l == c
  {
    if IsUpper(c) then (c as int + 32) as char else c
  }

  /** Python `s.upper()` over ASCII letters. */
  function Upper(s: string): (r: string)
    ensures |r| == |s|
    ensures forall i :: 0 <= i < |s| ==> r[i] == UpperChar(s[i])
  {
    if s == [] then [] else [UpperChar(s[0])] + Upper(s[1..])
  }

  /** Python `s.find(c)` for a single character: the first index of `c`, or -1. */
  function Find(s: string, c: char): (r: int)
    ensures -1 <= r < |s|
    ensures r == -1 <==> c !in s
    ensures r >= 0 ==> s[r] == c && c !in s[..r]
  {
    if s == [] then -1
    else if s[0] == c then 0
    else
      var k := Find(s[1..], c);
      assert s == [s[0]] + s[1..];
      if k == -1 then -1 else k + 1
  }

  /** Python `sep.join(items)`. */
  function Join(sep: string, items: seq<string>): string
    decreases |items|
  {
    if |items| == 0 then []
    else if |items| == 1 then items[0]
    else items[0] + sep + Join(sep, items[1..])
  }

  lemma {:induction false} JoinAppend(sep: string, a: seq<string>, b: seq<string>)
    requires a != [] && b != []
    ensures Join(sep, a + b) == Join(sep, a) + sep + Join(sep, b)
    decreases |a|
  {
    if |a| == 1 {
      assert (a + b)[1..] == b;
    } else {
      assert (a + b)[1..] == a[1..] + b;
      JoinAppend(sep, a[1..], b);
    }
  }

  lemma JoinCons(sep: string, item: string, items: seq<string>)
    requires items != []
    ensures Join(sep, [item] + items) == item + sep + Join(sep, items)
  {
    assert ([item] + items)[1..] == items;
  }

  /** Where item `i` starts in `sep.join(items)`. */
  function JoinOffset(sep: string, items: seq<string>, i: nat): nat
    requires i <= |items|
    decreases i
  {
    if i == 0 then 0 else |items[0]| + |sep| + JoinOffset(sep, items[1..], i - 1)
  }

  /** Every item occurs in the joined text at its offset. */
  lemma {:induction false} JoinItem(sep: string, items: seq<string>, i: nat)
    requires i < |items|
    ensures OccursAt(Join(sep, items), items[i], JoinOffset(sep, items, i))
    decreases i
  {
    if i == 0 {
      JoinHead(sep, items);
    } else {
      JoinItem(sep, items[1..], i - 1);
      JoinItemShift(sep, items, i);
    }
  }

  /** The join starts with the first item. */
  lemma JoinHead(sep: string, items: seq<string>)
    requires |items| > 0
    ensures OccursAt(Join(sep, items), items[0], 0)
  {
    if |items| > 1 {
      OccursInMiddle([], items[0], sep + Join(sep, items[1..]));
      assert [] + items[0] + (sep + Join(sep, items[1..])) == Join(sep, items);
    }
  }

  /** An item found in the join of the tail is found in the whole join, one
      item and one separator further on. */
  lemma JoinItemShift(sep: string, items: seq<string>, i: nat)
    requires 0 < i < |items|
    requires OccursAt(Join(sep, items[1..]), items[1..][i - 1], JoinOffset(sep, items[1..], i - 1))
    ensures OccursAt(Join(sep, items), items[i], JoinOffset(sep, items, i))
  {
    var rest := Join(sep, items[1..]);
    assert Join(sep, items) == items[0] + sep + rest;
    OccursWithin(rest, items[i], JoinOffset(sep, items[1..], i - 1), items[0] + sep, []);
    assert items[0] + sep + rest + [] == Join(sep, items);
  }

  /** Offsets grow an item and a separator at a time. */
  lemma {:induction false} JoinOffsetNext(sep: string, items: seq<string>, i: nat)
    requires i < |items|
    ensures JoinOffset(sep, items, i + 1) == JoinOffset(sep, items, i) + |items[i]| + |sep|
    decreases i
  {
    if i > 0 {
      JoinOffsetNext(sep, items[1..], i - 1);
      assert items[1..][i - 1] == items[i];
    }
  }

  /** `"".join(items)`. */
  function Concat(items: seq<string>): string
    decreases |items|
  {
    if items == [] then [] else items[0] + Concat(items[1..])
  }

  /** A word of `str.split()`: a non-empty run of non-whitespace characters. */
  predicate IsWord(w: string)
  {
    w != [] && SpaceFree(w)
  }

  predicate SpaceFree(w: string)
  {
    forall i :: 0 <= i < |w| ==> !IsSpace(w[i])
  }

  /** The length of the run of non-whitespace characters that starts `s`. */
  function WordLength(s: string): (n: nat)
    ensures n <= |s|
    ensures SpaceFree(s[..n])
    ensures n == |s| || IsSpace(s[n])
    decreases |s|
  {
    if s == [] || IsSpace(s[0]) then 0
    else
      var m := WordLength(s[1..]);
      assert s[..m + 1] == [s[0]] + s[1..][..m];
      1 + m
  }

  /** `s.split()` with no separator: the maximal runs of non-whitespace
      characters of `s`, in order. */
  function Words(s: string): seq<string>
    decreases |s|
  {
    if s == [] then []
    else if IsSpace(s[0]) then Words(s[1..])
    else
      var n := WordLength(s);
      [s[..n]] + Words(s[n..])
  }

  lemma {:induction false} NonSpaceOfWord(w: string)
    requires SpaceFree(w)
    ensures NonSpace(w) == w
    decreases |w|
  {
    if w != [] {
      assert forall i :: 0 <= i < |w[1..]| ==> w[1..][i] == w[i + 1];
      NonSpaceOfWord(w[1..]);
    }
  }

  /** Every item of `Words(s)` is a word, and together they hold exactly the
      non-whitespace characters of `s`. */
  lemma {:induction false} WordsAreWords(s: string)
    ensures forall k :: 0 <= k < |Words(s)| ==> IsWord(Words(s)[k])
    ensures Concat(Words(s)) == NonSpace(s)
    decreases |s|
  {
    if s != [] {
      if IsSpace(s[0]) {
        WordsAreWords(s[1..]);
      } else {
        var n := WordLength(s);
        assert IsWord(s[..n]);
        WordsAreWords(s[n..]);
        assert s == s[..n] + s[n..];
        NonSpaceAppend(s[..n], s[n..]);
        NonSpaceOfWord(s[..n]);
      }
    }
  }

  lemma {:induction false} WordsBlankPrefix(b: string, x: string)
    requires IsBlank(b)
    ensures Words(b + x) == Words(x)
    decreases |b|
  {
    if b == [] {
      assert b + x == x;
    } else {
      assert (b + x)[0] == b[0];
      assert (b + x)[1..] == b[1..] + x;
      BlankSlice(b, 1, |b|);
      WordsBlankPrefix(b[1..], x);
    }
  }

  lemma {:induction false} WordLengthBlankSuffix(x: string, b: string)
    requires IsBlank(b)
    ensures WordLength(x + b) == WordLength(x)
    decreases |x|
  {
    if x == [] {
      assert x + b == b;
    } else if !IsSpace(x[0]) {
      assert (x + b)[1..] == x[1..] + b;
      WordLengthBlankSuffix(x[1..], b);
    }
  }

  lemma {:induction false} WordsBlankSuffix(x: string, b: string)
    requires IsBlank(b)
    ensures Words(x + b) == Words(x)
    decreases |x|
  {
    if x == [] {
      assert x + b == b + [];
      WordsBlankPrefix(b, []);
    } else if IsSpace(x[0]) {
      assert (x + b)[1..] == x[1..] + b;
      WordsBlankSuffix(x[1..], b);
    } else {
      var n := WordLength(x);
      WordLengthBlankSuffix(x, b);
      assert (x + b)[..n] == x[..n];
      assert (x + b)[n..] == x[n..] + b;
      WordsBlankSuffix(x[n..], b);
    }
  }

  /** Stripping leaves the words alone. */
  lemma WordsStrip(s: string)
    ensures Words(Strip(s)) == Words(s)
  {
    WordsLStrip(s);
    WordsRStrip(LStrip(s));
  }

  lemma WordsLStrip(s: string)
    ensures Words(LStrip(s)) == Words(s)
  {
    WordsAfterBlank(s, |s| - |LStrip(s)|);
  }

  lemma WordsRStrip(s: string)
    ensures Words(RStrip(s)) == Words(s)
  {
    WordsBeforeBlank(s, |RStrip(s)|);
  }

  lemma WordsAfterBlank(s: string, k: nat)
    requires k <= |s| && IsBlank(s[..k])
    ensures Words(s[k..]) == Words(s)
  {
    assert s == s[..k] + s[k..];
    WordsBlankPrefix(s[..k], s[k..]);
  }

  lemma WordsBeforeBlank(s: string, k: nat)
    requires k <= |s| && IsBlank(s[k..])
    ensures Words(s[..k]) == Words(s)
  {
    assert s == s[..k] + s[k..];
    WordsBlankSuffix(s[..k], s[k..]);
  }

  /** A non-whitespace character in front of `x` either lengthens the first
      word of `x` or becomes a word of its own. */
  lemma WordsCons(c: char, x: string)
    requires !IsSpace(c)
    ensures x != [] && !IsSpace(x[0]) ==> Words([c] + x) == [[c] + Words(x)[0]] + Words(x)[1..]
    ensures (x == [] || IsSpace(x[0])) ==> Words([c] + x) == [[c]] + Words(x)
  {
    if x != [] && !IsSpace(x[0]) {
      WordsConsJoins(c, x);
    } else {
      WordsConsStarts(c, x);
    }
  }

  lemma WordsConsJoins(c: char, x: string)
    requires !IsSpace(c) && x != [] && !IsSpace(x[0])
    ensures Words([c] + x) == [[c] + Words(x)[0]] + Words(x)[1..]
  {
    var s := [c] + x;
    var m := WordLength(x);
    assert s[1..] == x;
    assert WordLength(s) == 1 + m;
    assert Words(x) == [x[..m]] + Words(x[m..]);
    assert s[..m + 1] == [c] + x[..m];
    assert s[m + 1..] == x[m..];
  }

  lemma WordsConsStarts(c: char, x: string)
    requires !IsSpace(c) && (x == [] || IsSpace(x[0]))
    ensures Words([c] + x) == [[c]] + Words(x)
  {
    var s := [c] + x;
    assert s[1..] == x;
    assert WordLength(s) == 1;
    assert s[..1] == [c];
  }
}
