/**
 * The text-quality gate and the guard branches of the report summarizer in
 * features/summarization/feature_5_summarization.py. Strings are sequences
 * of Unicode scalar values, so the surrogate code points a Python `str` can
 * hold are not modelled; whitespace is the set Python's `str.isspace` accepts,
 * which is what `str.strip()` and `str.split()` without arguments use.
 */
module Summarization {
  import opened Wrappers

  /** `MAX_SENTENCES`: the summary keeps at most this many sentences. */
  const MaxSentences: nat := 2
  /** `MIN_TEXT_LENGTH`: stripped text shorter than this is rejected. */
  const MinTextLength: nat := 15
  /** `[aeiouAEIOU]`, the vowel class the gate searches for. */
  const Vowels: string := "aeiouAEIOU"
  /** Minimum number of distinct characters of meaningful text. */
  const MinDistinctChars: nat := 5
  /** Minimum number of words of meaningful text. */
  const MinWords: nat := 3
  /** Pieces of the fallback split must be longer than this once stripped. */
  const MinPieceLength: nat := 5

  /** Python's whitespace: the characters for which `str.isspace()` holds. */
  const Whitespace: set<char> := {
    '\t', '\n', '\U{0b}', '\U{0c}', '\r', '\U{1c}', '\U{1d}', '\U{1e}', '\U{1f}', ' ',
    '\U{85}', '\U{a0}', '\U{1680}', '\U{2000}', '\U{2001}', '\U{2002}', '\U{2003}',
    '\U{2004}', '\U{2005}', '\U{2006}', '\U{2007}', '\U{2008}', '\U{2009}', '\U{200a}',
    '\U{2028}', '\U{2029}', '\U{202f}', '\U{205f}', '\U{3000}'}

  predicate IsSpace(c: char)
  {
    c in Whitespace
  }

  predicate AllSpace(s: string)
  {
    forall i :: 0 <= i < |s| ==> IsSpace(s[i])
  }

  predicate NoSpace(s: string)
  {
    forall i :: 0 <= i < |s| ==> !IsSpace(s[i])
  }

  /** Number of whitespace characters at the front of `s`. */
  function LeadingSpaceCount(s: string): (n: nat)
    ensures n <= |s|
    ensures forall i :: 0 <= i < n ==> IsSpace(s[i])
    ensures n < |s| ==> !IsSpace(s[n])
  {
    if s == [] || !IsSpace(s[0]) then 0 else 1 + LeadingSpaceCount(s[1..])
  }

  /** Number of whitespace characters at the back of `s`. */
  function TrailingSpaceCount(s: string): (n: nat)
    ensures n <= |s|
    ensures forall i :: |s| - n <= i < |s| ==> IsSpace(s[i])
    ensures n < |s| ==> !IsSpace(s[|s| - n - 1])
  {
    if s == [] || !IsSpace(s[|s| - 1]) then 0 else 1 + TrailingSpaceCount(s[..|s| - 1])
  }

  /** Where the stripped text starts in `s`. */
  function StripStart(s: string): nat
  {
    LeadingSpaceCount(s)
  }

  /** Where the stripped text ends in `s`; `StripStart(s)` when `s` is all whitespace. */
  function StripEnd(s: string): (e: nat)
    ensures StripStart(s) <= e <= |s|
  {
    if LeadingSpaceCount(s) == |s| then |s| else |s| - TrailingSpaceCount(s)
  }

  /** `str.strip()`: the text between the leading and the trailing whitespace. */
  function Strip(s: string): (t: string)
    ensures |t| <= |s|
    ensures t == [] || (!IsSpace(t[0]) && !IsSpace(t[|t| - 1]))
    ensures forall i :: 0 <= i < StripStart(s) ==> IsSpace(s[i])
    ensures forall i :: StripEnd(s) <= i < |s| ==> IsSpace(s[i])
  {
    s[StripStart(s)..StripEnd(s)]
  }

  /** `s` is its stripped form surrounded by the whitespace that was removed. */
  lemma StripDecomposes(s: string)
    ensures AllSpace(s[..StripStart(s)]) && AllSpace(s[StripEnd(s)..])
    ensures s == s[..StripStart(s)] + Strip(s) + s[StripEnd(s)..]
  {
  }

  /** A leading whitespace run of length `n` followed by non-whitespace or the end is the one counted. */
  lemma {:induction false} LeadingSpaceCountIs(s: string, n: nat)
    requires n <= |s|
    requires forall i :: 0 <= i < n ==> IsSpace(s[i])
    requires n < |s| ==> !IsSpace(s[n])
    ensures LeadingSpaceCount(s) == n
  {
    if n > 0 {
      assert IsSpace(s[0]);
      LeadingSpaceCountIs(s[1..], n - 1);
    }
  }

  /** A trailing whitespace run of length `n` preceded by non-whitespace or the start is the one counted. */
  lemma {:induction false} TrailingSpaceCountIs(s: string, n: nat)
    requires n <= |s|
    requires forall i :: |s| - n <= i < |s| ==> IsSpace(s[i])
    requires n < |s| ==> !IsSpace(s[|s| - n - 1])
    ensures TrailingSpaceCount(s) == n
  {
    if n > 0 {
      assert IsSpace(s[|s| - 1]);
      TrailingSpaceCountIs(s[..|s| - 1], n - 1);
    }
  }

  /**
   * Stripping is determined by the content: whitespace around a text that
   * starts and ends with non-whitespace is exactly what `Strip` removes.
   */
  lemma StripUnique(before: string, core: string, after: string)
    requires AllSpace(before) && AllSpace(after)
    requires core == [] || (!IsSpace(core[0]) && !IsSpace(core[|core| - 1]))
    ensures Strip(before + core + after) == core
  {
    var s := before + core + after;
    var b, e := |before|, |before| + |core|;
    forall i | 0 <= i < b
      ensures IsSpace(s[i])
    {
      assert s[i] == before[i];
    }
    forall i | e <= i < |s|
      ensures IsSpace(s[i])
    {
      assert s[i] == after[i - e];
    }
    if core == [] {
      LeadingSpaceCountIs(s, |s|);
    } else {
      assert s[b] == core[0];
      LeadingSpaceCountIs(s, b);
      assert s[e - 1] == core[|core| - 1];
      TrailingSpaceCountIs(s, |after|);
      assert s[b..e] == core;
    }
  }

  /** Stripping twice is stripping once. */
  lemma StripIdempotent(s: string)
    ensures Strip(Strip(s)) == Strip(s)
  {
    assert [] + Strip(s) + [] == Strip(s);
    StripUnique([], Strip(s), []);
  }

  lemma AllSpaceAppend(a: string, b: string)
    requires AllSpace(a) && AllSpace(b)
    ensures AllSpace(a + b)
  {
    forall i | 0 <= i < |a + b|
      ensures IsSpace((a + b)[i])
    {
      if i >= |a| {
        assert (a + b)[i] == b[i - |a|];
      }
    }
  }

  lemma Regroup(a: string, b: string, c: string, d: string, e: string)
    ensures a + (b + c + d) + e == (a + b) + c + (d + e)
  {
  }

  /** Whitespace added around a text does not change its stripped form. */
  lemma StripIgnoresPadding(before: string, s: string, after: string)
    requires AllSpace(before) && AllSpace(after)
    ensures Strip(before + s + after) == Strip(s)
  {
    var lead, core, trail := s[..StripStart(s)], Strip(s), s[StripEnd(s)..];
    StripDecomposes(s);
    AllSpaceAppend(before, lead);
    AllSpaceAppend(trail, after);
    Regroup(before, lead, core, trail, after);
    StripUnique(before + lead, core, trail + after);
  }

  /** Length of the run of non-whitespace at the start of `s`. */
  function WordLength(s: string): (n: nat)
    ensures n <= |s|
    ensures NoSpace(s[..n])
    ensures n < |s| ==> IsSpace(s[n])
  {
    if s == [] || IsSpace(s[0]) then 0
    else
      var rest := WordLength(s[1..]);
      assert s[..1 + rest] == [s[0]] + s[1..][..rest];
      1 + rest
  }

  /** `str.split()` without arguments: the maximal runs of non-whitespace, in order. */
  function Words(s: string): (words: seq<string>)
    ensures forall k :: 0 <= k < |words| ==> |words[k]| > 0 && NoSpace(words[k])
    decreases |s|
  {
    var t := s[LeadingSpaceCount(s)..];
    if t == [] then []
    else
      var n := WordLength(t);
      [t[..n]] + Words(t[n..])
  }

  /** The characters of `s` that are not whitespace, in order. */
  function NonSpace(s: string): string
  {
    if s == [] then [] else (if IsSpace(s[0]) then [] else [s[0]]) + NonSpace(s[1..])
  }

  function Concat(words: seq<string>): string
  {
    if words == [] then [] else words[0] + Concat(words[1..])
  }

  lemma {:induction false} NonSpaceAppend(a: string, b: string)
    ensures NonSpace(a + b) == NonSpace(a) + NonSpace(b)
  {
    if a != [] {
      assert (a + b)[1..] == a[1..] + b;
      NonSpaceAppend(a[1..], b);
    } else {
      assert a + b == b;
    }
  }

  lemma {:induction false} NonSpaceOfSpaces(s: string)
    requires AllSpace(s)
    ensures NonSpace(s) == []
  {
    if s != [] {
      NonSpaceOfSpaces(s[1..]);
    }
  }

  lemma {:induction false} NonSpaceOfWord(s: string)
    requires NoSpace(s)
    ensures NonSpace(s) == s
  {
    if s != [] {
      NonSpaceOfWord(s[1..]);
    }
  }

  /** Splitting on whitespace loses the whitespace and nothing else. */
  lemma {:induction false} WordsKeepContent(s: string)
    ensures Concat(Words(s)) == NonSpace(s)
    decreases |s|
  {
    var t := s[LeadingSpaceCount(s)..];
    NonSpaceSkipsLeading(s);
    if t != [] {
      var n := WordLength(t);
      var rest := t[n..];
      NonSpaceSplitsWord(t);
      WordsKeepContent(rest);
      assert Words(s) == [t[..n]] + Words(rest);
      ConcatCons(t[..n], Words(rest));
    }
  }

  lemma NonSpaceSkipsLeading(s: string)
    ensures NonSpace(s) == NonSpace(s[LeadingSpaceCount(s)..])
  {
    var k := LeadingSpaceCount(s);
    assert s == s[..k] + s[k..];
    NonSpaceAppend(s[..k], s[k..]);
    NonSpaceOfSpaces(s[..k]);
  }

  lemma NonSpaceSplitsWord(t: string)
    ensures NonSpace(t) == t[..WordLength(t)] + NonSpace(t[WordLength(t)..])
  {
    var n := WordLength(t);
    assert t == t[..n] + t[n..];
    NonSpaceAppend(t[..n], t[n..]);
    NonSpaceOfWord(t[..n]);
  }

  lemma ConcatCons(word: string, words: seq<string>)
    ensures Concat([word] + words) == word + Concat(words)
  {
    assert ([word] + words)[1..] == words;
  }

  /** Text with two or more words contains whitespace. */
  lemma WordsAreSeparated(s: string)
    requires |Words(s)| >= 2
    ensures exists i :: 0 <= i < |s| && IsSpace(s[i])
  {
    var t := s[LeadingSpaceCount(s)..];
    var n := WordLength(t);
    assert Words(s)[1..] == Words(t[n..]);
    assert n < |t|;
    assert t[n] == s[LeadingSpaceCount(s) + n];
  }

  /**
   * A layout of a text: whitespace gaps around and between its words. Words
   * are non-empty runs of non-whitespace, and every gap between two words is
   * non-empty; the gaps at either end may be empty.
   */
  predicate IsLayout(gaps: seq<string>, words: seq<string>)
  {
    |gaps| == |words| + 1 &&
    (forall j :: 0 <= j < |gaps| ==> AllSpace(gaps[j])) &&
    (forall j :: 0 < j < |words| ==> |gaps[j]| > 0) &&
    (forall k :: 0 <= k < |words| ==> |words[k]| > 0 && NoSpace(words[k]))
  }

  /** The text a layout spells: gap, word, gap, ..., word, gap. */
  function Interleave(gaps: seq<string>, words: seq<string>): string
    requires |gaps| == |words| + 1
  {
    if words == [] then gaps[0] else gaps[0] + words[0] + Interleave(gaps[1..], words[1..])
  }

  /** The whitespace runs of `s` before, between and after the words `Words` finds. */
  function Gaps(s: string): (gaps: seq<string>)
    ensures |gaps| >= 1 && gaps[0] == s[..LeadingSpaceCount(s)]
    decreases |s|
  {
    var k := LeadingSpaceCount(s);
    var t := s[k..];
    if t == [] then [s[..k]] else [s[..k]] + Gaps(t[WordLength(t)..])
  }

  lemma InterleaveCons(gap: string, word: string, gaps: seq<string>, words: seq<string>)
    requires |gaps| == |words| + 1
    ensures Interleave([gap] + gaps, [word] + words) == gap + word + Interleave(gaps, words)
  {
    assert ([gap] + gaps)[1..] == gaps;
    assert ([word] + words)[1..] == words;
  }

  lemma LayoutCons(gap: string, word: string, gaps: seq<string>, words: seq<string>)
    requires IsLayout(gaps, words)
    requires AllSpace(gap) && |word| > 0 && NoSpace(word)
    requires words != [] ==> |gaps[0]| > 0
    ensures IsLayout([gap] + gaps, [word] + words)
  {
  }

  /** One step of `Words` and `Gaps`: the leading gap, the first word, and the rest of the text. */
  lemma WordsUnfold(s: string, k: nat, n: nat)
    requires k == LeadingSpaceCount(s) && k < |s|
    requires n == WordLength(s[k..])
    ensures Gaps(s) == [s[..k]] + Gaps(s[k..][n..])
    ensures Words(s) == [s[k..][..n]] + Words(s[k..][n..])
  {
  }

  lemma SplitThree<T>(s: seq<T>, k: nat, n: nat)
    requires k + n <= |s|
    ensures s == s[..k] + s[k..][..n] + s[k..][n..]
  {
    assert s[k..] == s[k..][..n] + s[k..][n..];
    assert s == s[..k] + s[k..];
  }

  /** The leading gap is whitespace, the first word is a non-empty run of non-whitespace, and what follows it is empty or starts with whitespace. */
  lemma FirstWordShape(s: string, k: nat, n: nat)
    requires k == LeadingSpaceCount(s) && k < |s|
    requires n == WordLength(s[k..])
    ensures AllSpace(s[..k]) && 0 < n && NoSpace(s[k..][..n])
    ensures s[k..][n..] == [] || IsSpace(s[k..][n..][0])
  {
    assert s[k..][0] == s[k];
  }

  /** A text that is empty or starts with whitespace has an empty first word gap only when it has no words. */
  lemma FirstGapNonEmpty(s: string)
    requires s == [] || IsSpace(s[0])
    ensures Words(s) != [] ==> |Gaps(s)[0]| > 0
  {
  }

  /** Every text is its words interleaved with the whitespace around and between them. */
  lemma {:induction false} WordsLayout(s: string)
    ensures IsLayout(Gaps(s), Words(s))
    ensures Interleave(Gaps(s), Words(s)) == s
    decreases |s|
  {
    var k := LeadingSpaceCount(s);
    var t := s[k..];
    if t != [] {
      var n := WordLength(t);
      var rest := t[n..];
      WordsUnfold(s, k, n);
      FirstWordShape(s, k, n);
      SplitThree(s, k, n);
      WordsLayout(rest);
      FirstGapNonEmpty(rest);
      LayoutCons(s[..k], t[..n], Gaps(rest), Words(rest));
      InterleaveCons(s[..k], t[..n], Gaps(rest), Words(rest));
    }
  }

  /** A layout with words is a first gap, a first word, and a layout of the rest whose first gap separates them. */
  lemma LayoutTail(gaps: seq<string>, words: seq<string>)
    requires IsLayout(gaps, words) && words != []
    ensures AllSpace(gaps[0]) && |words[0]| > 0 && NoSpace(words[0])
    ensures IsLayout(gaps[1..], words[1..])
    ensures words[1..] != [] ==> |gaps[1..][0]| > 0
    ensures Interleave(gaps, words) == gaps[0] + words[0] + Interleave(gaps[1..], words[1..])
  {
  }

  /** A layout's text is empty or starts with whitespace when its first gap must be non-empty. */
  lemma LayoutStartsWithSpace(gaps: seq<string>, words: seq<string>)
    requires IsLayout(gaps, words)
    requires words != [] ==> |gaps[0]| > 0
    ensures Interleave(gaps, words) == [] || IsSpace(Interleave(gaps, words)[0])
  {
    if gaps[0] != [] {
      assert IsSpace(gaps[0][0]);
    }
  }

  /** A non-whitespace run of length `n` followed by whitespace or the end is the one measured. */
  lemma {:induction false} WordLengthIs(s: string, n: nat)
    requires n <= |s|
    requires NoSpace(s[..n])
    requires n < |s| ==> IsSpace(s[n])
    ensures WordLength(s) == n
  {
    if n > 0 {
      assert s[..n][0] == s[0];
      assert s[1..][..n - 1] == s[..n][1..];
      WordLengthIs(s[1..], n - 1);
    }
  }

  /** Whitespace, then a word, then a text that is empty or starts with whitespace: that word comes first. */
  lemma WordsCons(gap: string, word: string, rest: string)
    requires AllSpace(gap) && |word| > 0 && NoSpace(word)
    requires rest == [] || IsSpace(rest[0])
    ensures Words(gap + word + rest) == [word] + Words(rest)
  {
    var s := gap + word + rest;
    assert s == gap + (word + rest);
    assert LeadingSpaceCount(s) == |gap| by {
      assert s[|gap|] == word[0];
      LeadingSpaceCountIs(s, |gap|);
    }
    var t := s[|gap|..];
    assert t == word + rest;
    assert t[..|word|] == word && t[|word|..] == rest;
    WordLengthIs(t, |word|);
  }

  /** A text made of whitespace only has no words. */
  lemma WordsOfBlank(s: string)
    requires AllSpace(s)
    ensures Words(s) == []
  {
    LeadingSpaceCountIs(s, |s|);
  }

  /** Conversely, `Words` finds exactly the words of any layout in the text it spells. */
  lemma {:induction false} WordsOfLayout(gaps: seq<string>, words: seq<string>)
    requires IsLayout(gaps, words)
    ensures Words(Interleave(gaps, words)) == words
    decreases |words|
  {
    if words == [] {
      WordsOfBlank(gaps[0]);
    } else {
      LayoutTail(gaps, words);
      WordsOfLayout(gaps[1..], words[1..]);
      LayoutStartsWithSpace(gaps[1..], words[1..]);
      WordsCons(gaps[0], words[0], Interleave(gaps[1..], words[1..]));
      assert [words[0]] + words[1..] == words;
    }
  }

  /** A non-empty text without whitespace is a single word. */
  lemma WordsOfWord(s: string)
    requires |s| > 0 && NoSpace(s)
    ensures Words(s) == [s]
  {
    WordsCons([], s, []);
    assert [] + s + [] == s;
  }

  /** `Words(s)` is the one word list that, with some layout of whitespace gaps, spells `s`. */
  lemma WordsCharacterized(s: string, words: seq<string>)
    ensures Words(s) == words <==> exists gaps :: IsLayout(gaps, words) && Interleave(gaps, words) == s
  {
    WordsLayout(s);
    if exists gaps :: IsLayout(gaps, words) && Interleave(gaps, words) == s {
      var gaps :| IsLayout(gaps, words) && Interleave(gaps, words) == s;
      WordsOfLayout(gaps, words);
    }
  }

  /** `re.search(r"[aeiouAEIOU]", text)` finds a match. */
  predicate HasVowel(s: string): (found: bool)
    ensures found <==> exists c :: c in Vowels && c in s
  {
    exists i :: 0 <= i < |s| && s[i] in Vowels
  }

  /** `set(text)`. */
  function DistinctChars(s: string): (chars: set<char>)
    ensures forall c :: c in chars <==> c in s
  {
    set i | 0 <= i < |s| :: s[i]
  }

  /**
   * `is_meaningful_text`: the input is a string whose stripped form is at
   * least 15 characters long, contains a vowel, uses at least 5 distinct
   * characters and has at least 3 words. `None` is any non-string input.
   */
  function IsMeaningfulText(text: Option<string>): (meaningful: bool)
    ensures meaningful ==> text.Some? && |Strip(text.value)| >= MinTextLength
  {
    match text
    case None => false
    case Some(raw) =>
      var t := Strip(raw);
      if |t| < MinTextLength then false
      else if !HasVowel(t) then false
      else if |DistinctChars(t)| < MinDistinctChars then false
      else if |Words(t)| < MinWords then false
      else true
  }

  /** Each check of the gate rejects on its own, and passing all four accepts. */
  lemma MeaningfulIff(raw: string)
    ensures var t := Strip(raw);
      IsMeaningfulText(Some(raw)) <==>
        |t| >= MinTextLength && HasVowel(t) && |DistinctChars(t)| >= MinDistinctChars && |Words(t)| >= MinWords
  {
  }

  /** A raw string shorter than the minimum is rejected however it is padded. */
  lemma ShortTextRejected(raw: string)
    requires |raw| < MinTextLength
    ensures !IsMeaningfulText(Some(raw))
  {
  }

  /** A string with no whitespace is a single word and is rejected. */
  lemma {:induction false} UnbrokenTextRejected(raw: string)
    requires NoSpace(raw)
    ensures !IsMeaningfulText(Some(raw))
  {
    var t := Strip(raw);
    if |Words(t)| >= 2 {
      WordsAreSeparated(t);
      StripDecomposes(raw);
      assert false;
    }
  }

  /** Whitespace around a message never changes the verdict of the gate. */
  lemma MeaningfulIgnoresPadding(before: string, raw: string, after: string)
    requires AllSpace(before) && AllSpace(after)
    ensures IsMeaningfulText(Some(before + raw + after)) == IsMeaningfulText(Some(raw))
  {
    StripIgnoresPadding(before, raw, after);
  }

  /** Stripping meaningful text keeps it meaningful. */
  lemma MeaningfulStripped(raw: string)
    requires IsMeaningfulText(Some(raw))
    ensures IsMeaningfulText(Some(Strip(raw)))
  {
    StripIdempotent(raw);
  }

  /** `sep.join(pieces)`. */
  function Join(pieces: seq<string>, sep: char): (joined: string)
    ensures pieces != [] ==> pieces[0] <= joined
    ensures |pieces| >= 2 ==> |pieces[0]| < |joined| && joined[|pieces[0]|] == sep
  {
    if pieces == [] then []
    else if |pieces| == 1 then pieces[0]
    else pieces[0] + [sep] + Join(pieces[1..], sep)
  }

  lemma JoinCons(piece: string, pieces: seq<string>, sep: char)
    requires pieces != []
    ensures Join([piece] + pieces, sep) == piece + [sep] + Join(pieces, sep)
  {
    assert ([piece] + pieces)[1..] == pieces;
  }

  /** Position of the first `sep` in `s`, or `|s|` when there is none. */
  function FirstIndexOf(s: string, sep: char): (i: nat)
    ensures i <= |s|
    ensures sep !in s[..i]
    ensures i < |s| ==> s[i] == sep
  {
    if s == [] || s[0] == sep then 0
    else
      var rest := FirstIndexOf(s[1..], sep);
      assert s[..1 + rest] == [s[0]] + s[1..][..rest];
      1 + rest
  }

  /**
   * `s.split(sep)`: the pieces between separators, empty ones included;
   * joining them with the separator gives `s` back.
   */
  function SplitOn(s: string, sep: char): (pieces: seq<string>)
    ensures |pieces| >= 1
    ensures forall k :: 0 <= k < |pieces| ==> sep !in pieces[k]
    ensures Join(pieces, sep) == s
    decreases |s|
  {
    var i := FirstIndexOf(s, sep);
    if i == |s| then
      assert s[..i] == s;
      [s]
    else
      var rest := SplitOn(s[i + 1..], sep);
      assert s == s[..i] + [sep] + s[i + 1..];
      JoinCons(s[..i], rest, sep);
      [s[..i]] + rest
  }

  /** Joining separator-free pieces puts exactly one separator between neighbours. */
  lemma {:induction false} JoinCountsSeparators(pieces: seq<string>, sep: char)
    requires |pieces| >= 1
    requires forall k :: 0 <= k < |pieces| ==> sep !in pieces[k]
    ensures multiset(Join(pieces, sep))[sep] == |pieces| - 1
  {
    if |pieces| == 1 {
      assert sep !in pieces[0];
    } else {
      JoinCountsSeparators(pieces[1..], sep);
      var rest := Join(pieces[1..], sep);
      assert Join(pieces, sep) == pieces[0] + ([sep] + rest);
      assert sep !in pieces[0];
      assert multiset(Join(pieces, sep)) == multiset(pieces[0]) + (multiset{sep} + multiset(rest));
    }
  }

  /** `s.split(sep)` has one more piece than `s` has separators. */
  lemma SplitOnCount(s: string, sep: char)
    ensures |SplitOn(s, sep)| == multiset(s)[sep] + 1
  {
    JoinCountsSeparators(SplitOn(s, sep), sep);
  }

  /** `[s.strip() for s in pieces if len(s.strip()) > 5]`. */
  function LongPieces(pieces: seq<string>): (kept: seq<string>)
    ensures |kept| <= |pieces|
    ensures forall k :: 0 <= k < |kept| ==> |kept[k]| > MinPieceLength && Strip(kept[k]) == kept[k]
  {
    if pieces == [] then [] else Kept(pieces[0]) + LongPieces(pieces[1..])
  }

  /** What the fallback keeps of one piece: its stripped form, when that is longer than five. */
  function Kept(piece: string): (kept: seq<string>)
    ensures |kept| <= 1
    ensures forall k :: 0 <= k < |kept| ==> |kept[k]| > MinPieceLength && Strip(kept[k]) == kept[k]
  {
    var stripped := Strip(piece);
    StripIdempotent(piece);
    if |stripped| > MinPieceLength then [stripped] else []
  }

  /** No kept piece holds a character that no piece holds. */
  lemma {:induction false} LongPiecesAvoid(pieces: seq<string>, c: char)
    requires forall j :: 0 <= j < |pieces| ==> c !in pieces[j]
    ensures forall k :: 0 <= k < |LongPieces(pieces)| ==> c !in LongPieces(pieces)[k]
  {
    if pieces != [] {
      StripNoNewChars(pieces[0], c);
      LongPiecesAvoid(pieces[1..], c);
    }
  }

  /** The fallback keeps the pieces in their original order: it distributes over concatenation. */
  lemma {:induction false} LongPiecesAppend(a: seq<string>, b: seq<string>)
    ensures LongPieces(a + b) == LongPieces(a) + LongPieces(b)
  {
    if a == [] {
      assert a + b == b;
    } else {
      assert (a + b)[0] == a[0];
      assert (a + b)[1..] == a[1..] + b;
      LongPiecesAppend(a[1..], b);
      AppendAssoc(Kept(a[0]), LongPieces(a[1..]), LongPieces(b));
    }
  }

  /** A single piece is kept, stripped, exactly when its stripped form is longer than five. */
  lemma LongPiecesSingle(piece: string)
    ensures LongPieces([piece]) == if |Strip(piece)| > MinPieceLength then [Strip(piece)] else []
  {
    assert [piece][1..] == [];
  }

  /** The fallback branch of `safe_sentence_split`. */
  function FallbackSplit(text: string): (sentences: seq<string>)
    ensures forall k :: 0 <= k < |sentences| ==>
      |sentences[k]| > MinPieceLength && Strip(sentences[k]) == sentences[k] && '.' !in sentences[k]
  {
    var pieces := SplitOn(text, '.');
    LongPiecesAvoid(pieces, '.');
    LongPieces(pieces)
  }

  /** Stripping only removes characters. */
  lemma StripNoNewChars(s: string, c: char)
    requires c !in s
    ensures c !in Strip(s)
  {
    StripDecomposes(s);
  }

  /** The sentence splitter a tokenizer gives; `None` is the tokenizer raising. */
  type Tokenizer = string -> Option<seq<string>>

  /** `safe_sentence_split`: the tokenizer's sentences, or the fallback when it fails. */
  function SafeSentenceSplit(text: string, tokenize: Tokenizer): (sentences: seq<string>)
    ensures tokenize(text).Some? ==> sentences == tokenize(text).value
    ensures tokenize(text).None? ==> sentences == FallbackSplit(text)
  {
    match tokenize(text)
    case Some(sentences) => sentences
    case None => FallbackSplit(text)
  }

  /** The indices of the top sentences by embedding score, best first. */
  type Ranker = seq<string> -> seq<nat>

  /** `np.argsort(scores)[::-1][:MAX_SENTENCES]` on more than two sentences: two distinct valid indices. */
  ghost predicate IsRanker(top: Ranker)
  {
    forall sentences: seq<string> :: |sentences| > MaxSentences ==>
      |top(sentences)| == MaxSentences &&
      (forall k :: 0 <= k < MaxSentences ==> top(sentences)[k] < |sentences|) &&
      top(sentences)[0] != top(sentences)[1]
  }

  /**
   * `generate_summary`: no summary for text that is not meaningful; the
   * stripped message when it splits into at most two sentences; otherwise
   * the two top-ranked sentences joined by a space.
   */
  function GenerateSummary(message: Option<string>, tokenize: Tokenizer, top: Ranker): (summary: Option<string>)
    requires IsRanker(top)
    ensures summary.None? <==> !IsMeaningfulText(message)
    ensures summary.Some? && |SafeSentenceSplit(message.value, tokenize)| <= MaxSentences ==>
      summary.value == Strip(message.value)
    ensures summary.Some? && |SafeSentenceSplit(message.value, tokenize)| > MaxSentences ==>
      var sentences := SafeSentenceSplit(message.value, tokenize);
      var ids := top(sentences);
      summary.value == sentences[ids[0]] + " " + sentences[ids[1]]
  {
    if !IsMeaningfulText(message) then None
    else
      var sentences := SafeSentenceSplit(message.value, tokenize);
      if |sentences| <= MaxSentences then Some(Strip(message.value))
      else
        var ids := top(sentences);
        var chosen := [sentences[ids[0]], sentences[ids[1]]];
        assert Join(chosen, ' ') == sentences[ids[0]] + " " + sentences[ids[1]] by {
          assert chosen[1..] == [sentences[ids[1]]];
        }
        Some(Join(chosen, ' '))
  }

  /** A message short enough to be returned whole comes back as meaningful text. */
  lemma ShortSummaryIsMeaningful(message: Option<string>, tokenize: Tokenizer, top: Ranker)
    requires IsRanker(top)
    requires IsMeaningfulText(message)
    requires |SafeSentenceSplit(message.value, tokenize)| <= MaxSentences
    ensures GenerateSummary(message, tokenize, top).Some?
    ensures IsMeaningfulText(GenerateSummary(message, tokenize, top))
  {
    MeaningfulStripped(message.value);
  }
}
