/** `cleanFilename` (main.go:103-113): turns the summarizer's title into the
    stem of the output file's name. */
module Filenames {
  import opened Seqs
  import opened Text

  /** The stem is cut to this many bytes (main.go:109-110). */
  const MaxStemLength: nat := 50

  /** The class `[a-zA-Z0-9 ]` that the pattern `[^a-zA-Z0-9 ]+` negates. */
  predicate InClass(c: char) {
    'a' <= c <= 'z' || 'A' <= c <= 'Z' || '0' <= c <= '9' || c == ' '
  }

  /** What a stem may hold: small ASCII letters, digits and `-`. */
  predicate StemChar(c: char) {
    'a' <= c <= 'z' || '0' <= c <= '9' || c == '-'
  }

  // ---------------------------------------------------------------------
  // The pattern `[^a-zA-Z0-9 ]+`
  // ---------------------------------------------------------------------

  /** The length of the run of characters outside the class that `s` starts
      with: the text the pattern matches at the start of `s`. */
  function RunLength(s: string): (n: nat)
    ensures n <= |s|
    ensures forall k :: 0 <= k < n ==> !InClass(s[k])
    ensures n < |s| ==> InClass(s[n])
  {
    if |s| > 0 && !InClass(s[0]) then 1 + RunLength(s[1..]) else 0
  }

  /** `re.ReplaceAllString(s, "")`: scanning from the left, every maximal run
      of characters outside the class is a match and is replaced by nothing. */
  function DeleteRuns(s: string): string
    decreases |s|
  {
    if |s| == 0 then []
    else if InClass(s[0]) then [s[0]] + DeleteRuns(s[1..])
    else DeleteRuns(s[RunLength(s)..])
  }

  /** The characters of `s` that are in the class, in order. */
  function KeepClass(s: string): string
  {
    if |s| == 0 then []
    else (if InClass(s[0]) then [s[0]] else []) + KeepClass(s[1..])
  }

  /** Deleting the runs deletes exactly the characters outside the class. */
  lemma {:induction false} DeleteRunsKeepsClass(s: string)
    ensures DeleteRuns(s) == KeepClass(s)
    decreases |s|
  {
    if |s| > 0 {
      DeleteRunsKeepsClass(s[1..]);
      if !InClass(s[0]) {
        var n := RunLength(s);
        if n > 1 {
          assert RunLength(s[1..]) == n - 1;
          assert s[1..][n - 1..] == s[n..];
        }
      }
    }
  }

  /** The filter keeps characters of the class only, each from the input. */
  lemma {:induction false} KeepClassChars(s: string)
    ensures |KeepClass(s)| <= |s|
    ensures forall c :: c in KeepClass(s) ==> InClass(c) && c in s
  {
    if |s| > 0 {
      KeepClassChars(s[1..]);
    }
  }

  /** A string that is all in the class is kept whole. */
  lemma {:induction false} KeepClassOfClass(s: string)
    requires forall k :: 0 <= k < |s| ==> InClass(s[k])
    ensures KeepClass(s) == s
  {
    if |s| > 0 {
      KeepClassOfClass(s[1..]);
    }
  }

  /** Filtering a concatenation filters each part. */
  lemma {:induction false} KeepClassConcat(a: string, b: string)
    ensures KeepClass(a + b) == KeepClass(a) + KeepClass(b)
  {
    if |a| > 0 {
      assert (a + b)[1..] == a[1..] + b;
      KeepClassConcat(a[1..], b);
    } else {
      assert a + b == b;
    }
  }

  // ---------------------------------------------------------------------
  // The stem
  // ---------------------------------------------------------------------

  /** The title lower-cased, trimmed and filtered (main.go:106-107). */
  function Filtered(title: string): string
  {
    DeleteRuns(TrimSpaceRunes(Lower(title)))
  }

  /** The stem before it is cut to length: spaces become hyphens (main.go:108). */
  function Untruncated(title: string): string
  {
    Join(Split(Filtered(title), ' '), '-')
  }

  /** `cleanFilename`: the untruncated stem cut to at most 50 characters,
      made of small letters, digits and hyphens only. */
  function CleanFilename(title: string): (stem: string)
    ensures |stem| <= MaxStemLength && |stem| <= |Untruncated(title)|
    ensures stem == Untruncated(title)[..|stem|]
    ensures |Untruncated(title)| <= MaxStemLength ==> stem == Untruncated(title)
    ensures |Untruncated(title)| > MaxStemLength ==> |stem| == MaxStemLength
    ensures forall c :: c in stem ==> StemChar(c)
  {
    var cleaned := Untruncated(title);
    UntruncatedChars(title);
    var stem := if |cleaned| > MaxStemLength then cleaned[..MaxStemLength] else cleaned;
    assert forall k :: 0 <= k < |stem| ==> stem[k] == cleaned[k];
    stem
  }

  /** After lower-casing and trimming, the filter leaves small letters,
      digits and spaces only. */
  lemma FilteredChars(title: string)
    ensures forall c :: c in Filtered(title) ==> ('a' <= c <= 'z' || '0' <= c <= '9' || c == ' ')
  {
    var lowered := Lower(title);
    var trimmed := TrimSpaceRunes(lowered);
    assert forall c :: c in trimmed ==> c in lowered;
    assert forall c :: c in lowered ==> !('A' <= c <= 'Z');
    DeleteRunsKeepsClass(trimmed);
    KeepClassChars(trimmed);
  }

  /** Hyphens in the stem stand exactly for the spaces that survived the
      filter, one for one; every other character is the filtered title's. */
  lemma UntruncatedReplacesSpaces(title: string)
    ensures |Untruncated(title)| == |Filtered(title)|
    ensures forall k :: 0 <= k < |Filtered(title)| ==>
      (Untruncated(title)[k] == '-' <==> Filtered(title)[k] == ' ') &&
      (Filtered(title)[k] != ' ' ==> Untruncated(title)[k] == Filtered(title)[k])
  {
    var f := Filtered(title);
    JoinSplitIsReplace(f, ' ', '-');
    FilteredChars(title);
    assert forall k :: 0 <= k < |f| ==> f[k] in f;
  }

  /** The untruncated stem holds only small letters, digits and hyphens:
      no space and nothing outside ASCII, so its length in characters is its
      length in bytes. */
  lemma UntruncatedChars(title: string)
    ensures forall c :: c in Untruncated(title) ==> StemChar(c)
  {
    var u := Untruncated(title);
    var f := Filtered(title);
    UntruncatedReplacesSpaces(title);
    FilteredChars(title);
    forall k | 0 <= k < |u| ensures StemChar(u[k]) {
      assert f[k] in f;
    }
  }

  // ---------------------------------------------------------------------
  // Worked examples
  // ---------------------------------------------------------------------

  /** The stem of a title, computed stage by stage. */
  lemma CleanFilenameByStages(title: string, lowered: string, trimmed: string, kept: string)
    requires Lower(title) == lowered && TrimSpaceRunes(lowered) == trimmed
    requires KeepClass(trimmed) == kept && |kept| <= MaxStemLength
    ensures CleanFilename(title) == Replace(kept, ' ', '-')
  {
    DeleteRunsKeepsClass(trimmed);
    JoinSplitIsReplace(kept, ' ', '-');
  }

  /** A title with no capital letter is unchanged by lower-casing. */
  lemma LowerOfLower(s: string)
    requires forall k :: 0 <= k < |s| ==> !('A' <= s[k] <= 'Z') && s[k] != '\U{130}' && s[k] != '\U{212A}'
    ensures Lower(s) == s
  {
  }

  /** A string that neither starts nor ends with white space is trimmed. */
  lemma TrimmedUnchanged(s: string)
    requires |s| > 0 ==> !IsSpaceRune(s[0]) && !IsSpaceRune(s[|s| - 1])
    ensures TrimSpaceRunes(s) == s
  {
  }

  /** Two words of one small letter each become a hyphenated stem. */
  lemma TwoWords(x: char, y: char)
    requires 'a' <= x <= 'z' && 'a' <= y <= 'z'
    ensures CleanFilename([x, ' ', y]) == [x, '-', y]
  {
    LowerOfLower([x, ' ', y]);
    TrimmedUnchanged([x, ' ', y]);
    KeepClassOfClass([x, ' ', y]);
    CleanFilenameByStages([x, ' ', y], [x, ' ', y], [x, ' ', y], [x, ' ', y]);
    assert Replace([x, ' ', y], ' ', '-') == [x, '-', y];
  }

  /** The filter drops the `!` after a space. */
  lemma KeepClassDropsBang(x: char)
    requires 'a' <= x <= 'z'
    ensures KeepClass([x, ' ', '!']) == [x, ' ']
  {
    assert [x, ' ', '!'] == [x, ' '] + ['!'];
    KeepClassConcat([x, ' '], ['!']);
    KeepClassOfClass([x, ' ']);
  }

  /** Trimming comes before filtering, so a space left in front of removed
      punctuation ends the stem as a hyphen. */
  lemma TrailingHyphen(x: char)
    requires 'a' <= x <= 'z'
    ensures CleanFilename([x, ' ', '!']) == [x, '-']
  {
    LowerOfLower([x, ' ', '!']);
    TrimmedUnchanged([x, ' ', '!']);
    KeepClassDropsBang(x);
    CleanFilenameByStages([x, ' ', '!'], [x, ' ', '!'], [x, ' ', '!'], [x, ' ']);
    assert Replace([x, ' '], ' ', '-') == [x, '-'];
  }

  /** The filter drops the hyphen between two letters. */
  lemma KeepClassDropsHyphen(x: char, y: char)
    requires 'a' <= x <= 'z' && 'a' <= y <= 'z'
    ensures KeepClass([x, '-', y]) == [x, y]
  {
    assert [x, '-', y] == [x] + ['-', y];
    KeepClassConcat([x], ['-', y]);
    assert ['-', y][1..] == [y];
    KeepClassOfClass([x]);
    KeepClassOfClass([y]);
  }

  /** The hyphen of `x-y` is outside the class and goes. */
  lemma HyphenDropped(x: char, y: char)
    requires 'a' <= x <= 'z' && 'a' <= y <= 'z'
    ensures CleanFilename([x, '-', y]) == [x, y]
  {
    LowerOfLower([x, '-', y]);
    TrimmedUnchanged([x, '-', y]);
    KeepClassDropsHyphen(x, y);
    ReplaceNoOccurrence([x, y], ' ', '-');
    CleanFilenameByStages([x, '-', y], [x, '-', y], [x, '-', y], [x, y]);
  }

  /** Cleaning is not idempotent: the hyphens of a stem are outside the
      class, so cleaning the stem again deletes them. */
  lemma CleanFilenameNotIdempotent(x: char, y: char)
    requires 'a' <= x <= 'z' && 'a' <= y <= 'z'
    ensures CleanFilename(CleanFilename([x, ' ', y])) == [x, y]
  {
    TwoWords(x, y);
    HyphenDropped(x, y);
  }
}
