/** Bytes, white space and letter case as Go's `bytes`, `strings` and
    `unicode` packages define them, for the parts the program relies on. */
module Text {

  newtype byte = b: int | 0 <= b < 256

  const Newline: byte := 0x0A
  const CloseBracket: byte := 0x5D

  // ---------------------------------------------------------------------
  // White space in UTF-8 encoded bytes (`bytes.TrimSpace`)
  // ---------------------------------------------------------------------

  /** `\t`, `\n`, `\v`, `\f`, `\r` and space. */
  predicate IsAsciiSpace(b: byte) {
    b == 0x09 || b == 0x0A || b == 0x0B || b == 0x0C || b == 0x0D || b == 0x20
  }

  /** The two-byte UTF-8 encodings of white space: U+0085 and U+00A0. */
  predicate IsSpace2(b0: byte, b1: byte) {
    b0 == 0xC2 && (b1 == 0x85 || b1 == 0xA0)
  }

  /** The three-byte UTF-8 encodings of white space: U+1680, U+2000 to
      U+200A, U+2028, U+2029, U+202F, U+205F and U+3000. */
  predicate IsSpace3(b0: byte, b1: byte, b2: byte) {
    (b0 == 0xE1 && b1 == 0x9A && b2 == 0x80) ||
    (b0 == 0xE2 && b1 == 0x80 && ((0x80 <= b2 <= 0x8A) || b2 == 0xA8 || b2 == 0xA9 || b2 == 0xAF)) ||
    (b0 == 0xE2 && b1 == 0x81 && b2 == 0x9F) ||
    (b0 == 0xE3 && b1 == 0x80 && b2 == 0x80)
  }

  /** The byte length of the white-space rune that `s` starts with, or 0 when
      the first rune UTF-8 decodes to is not white space (an invalid byte
      decodes to U+FFFD, which is not white space either). */
  function LeadingSpaceLen(s: seq<byte>): (n: nat)
    ensures n <= 3 && n <= |s|
  {
    if |s| >= 1 && IsAsciiSpace(s[0]) then 1
    else if |s| >= 2 && IsSpace2(s[0], s[1]) then 2
    else if |s| >= 3 && IsSpace3(s[0], s[1], s[2]) then 3
    else 0
  }

  /** The byte length of the white-space rune that `s` ends with, decoding
      backwards as `utf8.DecodeLastRune` does, or 0. */
  function TrailingSpaceLen(s: seq<byte>): (n: nat)
    ensures n <= 3 && n <= |s|
  {
    var m := |s|;
    if m >= 1 && IsAsciiSpace(s[m - 1]) then 1
    else if m >= 2 && IsSpace2(s[m - 2], s[m - 1]) then 2
    else if m >= 3 && IsSpace3(s[m - 3], s[m - 2], s[m - 1]) then 3
    else 0
  }

  /** `s` is a run of white-space runes, read from the front. */
  ghost predicate SpaceRun(s: seq<byte>)
    decreases |s|
  {
    |s| == 0 || (LeadingSpaceLen(s) > 0 && SpaceRun(s[LeadingSpaceLen(s)..]))
  }

  /** Reading the first rune only looks at the bytes it spans. */
  lemma LeadingSpaceLenPrefix(s: seq<byte>, t: seq<byte>)
    requires 0 < LeadingSpaceLen(s) <= |t|
    requires t[..LeadingSpaceLen(s)] == s[..LeadingSpaceLen(s)]
    ensures LeadingSpaceLen(t) == LeadingSpaceLen(s)
  {
    var n := LeadingSpaceLen(s);
    assert t[0] == s[0];
    if n >= 2 { assert t[1] == s[1]; }
    if n >= 3 { assert t[2] == s[2]; }
  }

  /** A white-space rune found from the back reads the same from the front. */
  lemma TrailingSpaceReadsForward(s: seq<byte>)
    requires TrailingSpaceLen(s) > 0
    ensures LeadingSpaceLen(s[|s| - TrailingSpaceLen(s)..]) == TrailingSpaceLen(s)
  {
  }

  lemma {:induction false} SpaceRunConcat(x: seq<byte>, y: seq<byte>)
    requires SpaceRun(x) && SpaceRun(y)
    ensures SpaceRun(x + y)
    decreases |x|
  {
    if |x| > 0 {
      var n := LeadingSpaceLen(x);
      assert (x + y)[..n] == x[..n];
      LeadingSpaceLenPrefix(x, x + y);
      assert (x + y)[n..] == x[n..] + y;
      SpaceRunConcat(x[n..], y);
    } else {
      assert x + y == y;
    }
  }

  lemma SpaceRunOfOne(s: seq<byte>)
    requires |s| > 0 && LeadingSpaceLen(s) == |s|
    ensures SpaceRun(s)
  {
    assert s[|s|..] == [];
  }

  /** How many bytes `bytes.TrimLeftFunc(s, unicode.IsSpace)` removes. */
  function LeftSpaceCount(s: seq<byte>): (n: nat)
    ensures n <= |s|
    decreases |s|
  {
    var k := LeadingSpaceLen(s);
    if k == 0 then 0 else k + LeftSpaceCount(s[k..])
  }

  /** Left trimming stops at the first rune that is not white space. */
  lemma {:induction false} LeftSpaceCountStops(s: seq<byte>)
    ensures LeadingSpaceLen(s[LeftSpaceCount(s)..]) == 0
    decreases |s|
  {
    var k := LeadingSpaceLen(s);
    if k > 0 {
      LeftSpaceCountStops(s[k..]);
      assert s[k..][LeftSpaceCount(s[k..])..] == s[k + LeftSpaceCount(s[k..])..];
    }
  }

  /** How many bytes `bytes.TrimRightFunc(s, unicode.IsSpace)` removes. */
  function RightSpaceCount(s: seq<byte>): (n: nat)
    ensures n <= |s|
    decreases |s|
  {
    var k := TrailingSpaceLen(s);
    if k == 0 then 0 else k + RightSpaceCount(s[..|s| - k])
  }

  /** Right trimming stops at the last rune that is not white space. */
  lemma {:induction false} RightSpaceCountStops(s: seq<byte>)
    ensures TrailingSpaceLen(s[..|s| - RightSpaceCount(s)]) == 0
    decreases |s|
  {
    var k := TrailingSpaceLen(s);
    if k > 0 {
      RightSpaceCountStops(s[..|s| - k]);
      assert s[..|s| - k][..|s| - k - RightSpaceCount(s[..|s| - k])] == s[..|s| - RightSpaceCount(s)];
    }
  }

  /** A white-space rune followed by a run of white space is a run. */
  lemma SpaceRunStep(s: seq<byte>, k: nat, m: nat)
    requires 0 < k == LeadingSpaceLen(s) && k + m <= |s|
    requires SpaceRun(s[k..][..m])
    ensures SpaceRun(s[..k + m])
  {
    LeadingSpaceLenPrefix(s, s[..k + m]);
    assert s[..k + m][k..] == s[k..][..m];
  }

  lemma {:induction false} LeftSpaceCountIsSpaceRun(s: seq<byte>)
    ensures SpaceRun(s[..LeftSpaceCount(s)])
    decreases |s|
  {
    if LeadingSpaceLen(s) > 0 {
      LeftSpaceCountIsSpaceRun(s[LeadingSpaceLen(s)..]);
      SpaceRunStep(s, LeadingSpaceLen(s), LeftSpaceCount(s[LeadingSpaceLen(s)..]));
    }
  }

  /** The white-space rune that `s` ends with is a run of white space. */
  lemma TrailingRuneIsSpaceRun(s: seq<byte>)
    requires TrailingSpaceLen(s) > 0
    ensures SpaceRun(s[|s| - TrailingSpaceLen(s)..])
  {
    TrailingSpaceReadsForward(s);
    SpaceRunOfOne(s[|s| - TrailingSpaceLen(s)..]);
  }

  /** Bytes made of two runs of white space are a run. */
  lemma SpaceRunJoin(x: seq<byte>, y: seq<byte>, w: seq<byte>)
    requires SpaceRun(x) && SpaceRun(y) && w == x + y
    ensures SpaceRun(w)
  {
    SpaceRunConcat(x, y);
  }

  /** The bytes `RightSpaceCount` removes from `s` are those it removes
      from `s` without its last white-space rune, then that rune. */
  lemma RightSpaceCountStep(s: seq<byte>)
    requires TrailingSpaceLen(s) > 0
    ensures var front := s[..|s| - TrailingSpaceLen(s)];
      s[|s| - RightSpaceCount(s)..] ==
      front[|front| - RightSpaceCount(front)..] + s[|s| - TrailingSpaceLen(s)..]
  {
  }

  /** One step of the induction below: the white-space rune that ends `s`
      extends the run removed from the bytes before it. */
  lemma RightRunStep(s: seq<byte>)
    requires TrailingSpaceLen(s) > 0
    requires var front := s[..|s| - TrailingSpaceLen(s)];
      SpaceRun(front[|front| - RightSpaceCount(front)..])
    ensures SpaceRun(s[|s| - RightSpaceCount(s)..])
  {
    var front := s[..|s| - TrailingSpaceLen(s)];
    RightSpaceCountStep(s);
    TrailingRuneIsSpaceRun(s);
    SpaceRunJoin(front[|front| - RightSpaceCount(front)..], s[|s| - TrailingSpaceLen(s)..], s[|s| - RightSpaceCount(s)..]);
  }

  lemma {:induction false} RightSpaceCountIsSpaceRun(s: seq<byte>)
    ensures SpaceRun(s[|s| - RightSpaceCount(s)..])
    decreases |s|
  {
    if TrailingSpaceLen(s) > 0 {
      RightSpaceCountIsSpaceRun(s[..|s| - TrailingSpaceLen(s)]);
      RightRunStep(s);
    }
  }

  /** A prefix of bytes that start with no white space starts with none. */
  lemma NoLeadingSpacePrefix(t: seq<byte>, m: nat)
    requires m <= |t| && LeadingSpaceLen(t) == 0
    ensures LeadingSpaceLen(t[..m]) == 0
  {
  }

  /** Where the bytes `bytes.TrimSpace` keeps end: before the trailing
      white space of what follows the leading white space. */
  function TrimmedEnd(s: seq<byte>): (e: nat)
    ensures LeftSpaceCount(s) <= e <= |s|
  {
    |s| - RightSpaceCount(s[LeftSpaceCount(s)..])
  }

  /** `bytes.TrimSpace`: `s` without its leading and trailing white space
      (`TrimSpaceIsSlice`: the slice between the two cuts; `TrimSpaceEnds`:
      it neither starts nor ends with white space; `TrimSpaceCutsSpace`:
      what was cut off is white space). */
  function TrimSpace(s: seq<byte>): (r: seq<byte>)
    ensures LeftSpaceCount(s) + |r| <= |s|
  {
    s[LeftSpaceCount(s)..TrimmedEnd(s)]
  }

  /** The input is what is cut off in front, the result, and what is cut off
      behind. */
  lemma TrimSpaceIsSlice(s: seq<byte>)
    ensures s == s[..LeftSpaceCount(s)] + TrimSpace(s) + s[TrimmedEnd(s)..]
  {
  }

  /** What `TrimSpace` returns starts and ends with no white space. */
  lemma TrimSpaceEnds(s: seq<byte>)
    ensures LeadingSpaceLen(TrimSpace(s)) == 0 && TrailingSpaceLen(TrimSpace(s)) == 0
  {
    LeftSpaceCountStops(s);
    RightSpaceCountStops(s[LeftSpaceCount(s)..]);
    TrimmedEnds(s, LeftSpaceCount(s), RightSpaceCount(s[LeftSpaceCount(s)..]));
  }

  lemma TrimmedEnds(s: seq<byte>, i: nat, j: nat)
    requires i <= |s| && LeadingSpaceLen(s[i..]) == 0
    requires j <= |s| - i && TrailingSpaceLen(s[i..][..|s| - i - j]) == 0
    ensures LeadingSpaceLen(s[i..|s| - j]) == 0 && TrailingSpaceLen(s[i..|s| - j]) == 0
  {
    assert s[i..][..|s| - i - j] == s[i..|s| - j];
    NoLeadingSpacePrefix(s[i..], |s| - i - j);
  }

  /** What `TrimSpace` cuts off behind is a run of white space (what it cuts
      off in front is one by `LeftSpaceCountIsSpaceRun`). */
  lemma TrimSpaceCutsSpace(s: seq<byte>)
    ensures SpaceRun(s[TrimmedEnd(s)..])
  {
    RightSpaceCountIsSpaceRun(s[LeftSpaceCount(s)..]);
    BackCutIsRun(s, LeftSpaceCount(s), RightSpaceCount(s[LeftSpaceCount(s)..]), TrimmedEnd(s));
  }

  /** The last `j` bytes of the suffix of `s` from `i` are the bytes of `s`
      from `e = |s| - j`. */
  lemma BackCutIsRun(s: seq<byte>, i: nat, j: nat, e: nat)
    requires i + j <= |s| && e == |s| - j && SpaceRun(s[i..][|s[i..]| - j..])
    ensures SpaceRun(s[e..])
  {
    assert s[i..][|s[i..]| - j..] == s[e..];
  }

  /** Trimming adds no byte: a byte absent from the input is absent from
      the result. */
  lemma TrimSpaceKeepsBytes(s: seq<byte>, b: byte)
    requires b !in s
    ensures b !in TrimSpace(s)
  {
    TrimSpaceIsSlice(s);
  }

  /** Trimming bytes that neither start nor end with white space changes nothing. */
  lemma TrimSpaceKeepsTrimmed(s: seq<byte>)
    requires LeadingSpaceLen(s) == 0 && TrailingSpaceLen(s) == 0
    ensures TrimSpace(s) == s
  {
    assert s[0..] == s;
    assert s[..|s|] == s;
  }

  /** Bytes that are all ASCII white space trim to nothing. */
  lemma {:induction false} AsciiBlankTrimsToNothing(s: seq<byte>)
    requires forall k :: 0 <= k < |s| ==> IsAsciiSpace(s[k])
    ensures LeftSpaceCount(s) == |s|
    ensures TrimSpace(s) == []
  {
    if |s| > 0 {
      assert LeadingSpaceLen(s) == 1;
      AsciiBlankTrimsToNothing(s[1..]);
    }
  }

  /** Trimming twice is trimming once. */
  lemma TrimSpaceIdempotent(s: seq<byte>)
    ensures TrimSpace(TrimSpace(s)) == TrimSpace(s)
  {
    TrimSpaceEnds(s);
    TrimSpaceKeepsTrimmed(TrimSpace(s));
  }

  // ---------------------------------------------------------------------
  // White space and case of runes (`strings.TrimSpace`, `strings.ToLower`)
  // ---------------------------------------------------------------------

  /** `unicode.IsSpace`. */
  predicate IsSpaceRune(c: char) {
    ('\U{9}' <= c <= '\U{D}') || c == ' ' || c == '\U{85}' || c == '\U{A0}' ||
    c == '\U{1680}' || ('\U{2000}' <= c <= '\U{200A}') || c == '\U{2028}' || c == '\U{2029}' ||
    c == '\U{202F}' || c == '\U{205F}' || c == '\U{3000}'
  }

  /** How many runes `strings.TrimLeftFunc(s, unicode.IsSpace)` removes. */
  function LeftRuneSpaces(s: string): (n: nat)
    ensures n <= |s|
    ensures forall k :: 0 <= k < n ==> IsSpaceRune(s[k])
    ensures n < |s| ==> !IsSpaceRune(s[n])
  {
    if |s| > 0 && IsSpaceRune(s[0]) then 1 + LeftRuneSpaces(s[1..]) else 0
  }

  /** How many runes `strings.TrimRightFunc(s, unicode.IsSpace)` removes. */
  function RightRuneSpaces(s: string): (n: nat)
    ensures n <= |s|
    ensures forall k :: |s| - n <= k < |s| ==> IsSpaceRune(s[k])
    ensures n < |s| ==> !IsSpaceRune(s[|s| - 1 - n])
  {
    if |s| > 0 && IsSpaceRune(s[|s| - 1]) then 1 + RightRuneSpaces(s[..|s| - 1]) else 0
  }

  /** `strings.TrimSpace`: the slice of `s` left once the white space at
      both ends is cut off. */
  function TrimSpaceRunes(s: string): (r: string)
    ensures var i := LeftRuneSpaces(s);
      i + |r| <= |s| && r == s[i..i + |r|] &&
      (forall k :: 0 <= k < i ==> IsSpaceRune(s[k])) &&
      (forall k :: i + |r| <= k < |s| ==> IsSpaceRune(s[k]))
    ensures |r| > 0 ==> !IsSpaceRune(r[0]) && !IsSpaceRune(r[|r| - 1])
  {
    var t := s[LeftRuneSpaces(s)..];
    t[..|t| - RightRuneSpaces(t)]
  }

  /** Lower case of one rune, exact wherever the result can be ASCII: an
      ASCII capital becomes its small letter, and the two non-ASCII runes
      whose simple lower case is ASCII, U+0130 and U+212A, become `i` and
      `k`. Every other rune is returned as it is. */
  function LowerRune(c: char): (d: char)
    ensures 'A' <= c <= 'Z' ==> d as int == c as int + 32
    ensures !('A' <= d <= 'Z')
  {
    if 'A' <= c <= 'Z' then (c as int + 32) as char
    else if c == '\U{130}' then 'i'
    else if c == '\U{212A}' then 'k'
    else c
  }

  /** `strings.ToLower`, rune by rune. */
  function Lower(s: string): (r: string)
    ensures |r| == |s|
    ensures forall k :: 0 <= k < |s| ==> r[k] == LowerRune(s[k])
  {
    seq(|s|, k requires 0 <= k < |s| => LowerRune(s[k]))
  }
}
