/** `removeTimestamps` (main.go:128-140): the engine prints each transcript
    line behind a bracketed timestamp; the program keeps what follows the
    first `]` of each line. */
module Timestamps {
  import opened Seqs
  import opened Text

  /** The test of main.go:134: the line holds a `]` and its first `]` is not
      the line's last byte. */
  predicate HasText(line: seq<byte>) {
    var idx := IndexOf(line, CloseBracket);
    idx != -1 && idx < |line| - 1
  }

  /** What is kept of such a line: the bytes after its first `]`, trimmed. */
  function AfterStamp(line: seq<byte>): seq<byte>
    requires HasText(line)
  {
    TrimSpace(line[IndexOf(line, CloseBracket) + 1..])
  }

  /** The lines that survive, in their order, each reduced to its text. */
  function KeptLines(lines: seq<seq<byte>>): seq<seq<byte>>
  {
    if |lines| == 0 then []
    else
      var last := lines[|lines| - 1];
      KeptLines(lines[..|lines| - 1]) + (if HasText(last) then [AfterStamp(last)] else [])
  }

  /** The cleaned transcript: the surviving lines joined by single newlines. */
  function Stripped(input: seq<byte>): seq<byte>
  {
    Join(KeptLines(Split(input, Newline)), Newline)
  }

  /** `removeTimestamps`: splits on `\n`, collects the text of each line that
      has some, and joins the collected lines with `\n`. */
  method RemoveTimestamps(input: seq<byte>) returns (output: seq<byte>)
    ensures output == Stripped(input)
  {
    var lines := Split(input, Newline);
    var result: seq<seq<byte>> := [];
    for i := 0 to |lines|
      invariant result == KeptLines(lines[..i])
    {
      var line := lines[i];
      KeptLinesStep(lines, i);
      var idx := IndexOf(line, CloseBracket);
      if idx != -1 && idx < |line| - 1 {
        result := result + [TrimSpace(line[idx + 1..])];
      }
    }
    assert lines[..|lines|] == lines;
    output := Join(result, Newline);
  }

  lemma KeptLinesStep(lines: seq<seq<byte>>, i: nat)
    requires i < |lines|
    ensures KeptLines(lines[..i + 1]) ==
      KeptLines(lines[..i]) + (if HasText(lines[i]) then [AfterStamp(lines[i])] else [])
  {
    assert lines[..i + 1][..i] == lines[..i];
  }

  // ---------------------------------------------------------------------
  // Which lines are kept
  // ---------------------------------------------------------------------

  /** The positions of the lines that have text, in increasing order. */
  function KeptIndices(lines: seq<seq<byte>>): (ix: seq<nat>)
    ensures forall k :: 0 <= k < |ix| ==> ix[k] < |lines|
    ensures forall k, m :: 0 <= k < m < |ix| ==> ix[k] < ix[m]
    ensures forall i :: 0 <= i < |lines| ==> (i in ix <==> HasText(lines[i]))
  {
    if |lines| == 0 then []
    else
      var n := |lines| - 1;
      var front := KeptIndices(lines[..n]);
      assert forall i :: 0 <= i < n ==> lines[..n][i] == lines[i];
      front + (if HasText(lines[n]) then [n] else [])
  }

  /** The kept lines are exactly the lines at `KeptIndices`, in that order,
      each reduced to the text after its first `]`. */
  lemma {:induction false} KeptLinesAreSelected(lines: seq<seq<byte>>)
    ensures |KeptLines(lines)| == |KeptIndices(lines)|
    ensures forall k :: 0 <= k < |KeptIndices(lines)| ==>
      HasText(lines[KeptIndices(lines)[k]]) &&
      KeptLines(lines)[k] == AfterStamp(lines[KeptIndices(lines)[k]])
  {
    if |lines| > 0 {
      var n := |lines| - 1;
      var init := lines[..n];
      KeptLinesAreSelected(init);
      var ix, ix0 := KeptIndices(lines), KeptIndices(init);
      var kept, kept0 := KeptLines(lines), KeptLines(init);
      assert ix == ix0 + (if HasText(lines[n]) then [n] else []);
      assert kept == kept0 + (if HasText(lines[n]) then [AfterStamp(lines[n])] else []);
      forall k | 0 <= k < |ix|
        ensures HasText(lines[ix[k]]) && kept[k] == AfterStamp(lines[ix[k]])
      {
        if k < |ix0| {
          assert ix[k] == ix0[k] && kept[k] == kept0[k];
          assert init[ix0[k]] == lines[ix0[k]];
        }
      }
    }
  }

  /** A line without `]`, or whose only first `]` is its last byte, is
      dropped; otherwise the text after its FIRST `]` is kept, later `]`s
      included. */
  lemma FirstBracketDecides(line: seq<byte>, i: nat)
    requires i < |line| && line[i] == CloseBracket && CloseBracket !in line[..i]
    ensures HasText(line) <==> i < |line| - 1
    ensures HasText(line) ==> AfterStamp(line) == TrimSpace(line[i + 1..])
  {
  }

  lemma NoBracketDropped(line: seq<byte>)
    requires CloseBracket !in line
    ensures !HasText(line)
  {
  }

  // ---------------------------------------------------------------------
  // Shape of the output
  // ---------------------------------------------------------------------

  /** Kept lines are pieces of lines, so none holds a newline. */
  lemma {:induction false} KeptLinesHaveNoNewline(lines: seq<seq<byte>>)
    requires forall l :: l in lines ==> Newline !in l
    ensures forall l :: l in KeptLines(lines) ==> Newline !in l
  {
    if |lines| > 0 {
      var n := |lines| - 1;
      assert forall l :: l in lines[..n] ==> l in lines;
      KeptLinesHaveNoNewline(lines[..n]);
      var last := lines[n];
      if HasText(last) {
        assert last in lines;
        AfterStampHasNoNewline(last);
      }
    }
  }

  lemma AfterStampHasNoNewline(line: seq<byte>)
    requires HasText(line) && Newline !in line
    ensures Newline !in AfterStamp(line)
  {
    var rest := line[IndexOf(line, CloseBracket) + 1..];
    assert Newline !in rest;
    TrimSpaceKeepsBytes(rest, Newline);
  }

  lemma {:induction false} KeptLinesNoLonger(lines: seq<seq<byte>>)
    ensures |KeptLines(lines)| <= |lines|
  {
    if |lines| > 0 {
      KeptLinesNoLonger(lines[..|lines| - 1]);
    }
  }

  /** The output's lines are the kept lines, one per line: joined by single
      newlines, with no trailing newline. So the output has at most as many
      lines as the input. */
  lemma StrippedLines(input: seq<byte>)
    ensures KeptLines(Split(input, Newline)) != [] ==>
      Split(Stripped(input), Newline) == KeptLines(Split(input, Newline))
    ensures |Split(Stripped(input), Newline)| <= |Split(input, Newline)|
  {
    var lines := Split(input, Newline);
    var kept := KeptLines(lines);
    KeptLinesHaveNoNewline(lines);
    KeptLinesNoLonger(lines);
    if kept != [] {
      SplitJoin(kept, Newline);
    } else {
      assert Stripped(input) == [];
      assert IndexOf([], Newline) == -1;
    }
  }

  /** With no line that has text, the output is empty. */
  lemma {:induction false} NothingKeptIsEmpty(input: seq<byte>)
    requires forall l :: l in Split(input, Newline) ==> !HasText(l)
    ensures Stripped(input) == []
  {
    var lines := Split(input, Newline);
    KeptLinesAreSelected(lines);
  }

  // ---------------------------------------------------------------------
  // Lines of the engine's usual shape
  // ---------------------------------------------------------------------

  /** A line made of a stamp without `]`, the `]`, and some text keeps
      exactly that text, trimmed. */
  lemma StampedLine(stamp: seq<byte>, text: seq<byte>)
    requires CloseBracket !in stamp && |text| > 0
    ensures HasText(stamp + [CloseBracket] + text)
    ensures AfterStamp(stamp + [CloseBracket] + text) == TrimSpace(text)
  {
    var line := stamp + [CloseBracket] + text;
    assert line[..|stamp|] == stamp;
    FirstBracketDecides(line, |stamp|);
    assert line[|stamp| + 1..] == text;
  }

  /** A line that ends at its first `]` is dropped. */
  lemma BareStampDropped(stamp: seq<byte>)
    requires CloseBracket !in stamp
    ensures !HasText(stamp + [CloseBracket])
  {
    var line := stamp + [CloseBracket];
    assert line[..|stamp|] == stamp;
    FirstBracketDecides(line, |stamp|);
  }

  lemma KeptOfThree(a: seq<byte>, b: seq<byte>, c: seq<byte>)
    ensures KeptLines([a, b, c]) ==
      (if HasText(a) then [AfterStamp(a)] else []) +
      (if HasText(b) then [AfterStamp(b)] else []) +
      (if HasText(c) then [AfterStamp(c)] else [])
  {
    var ls := [a, b, c];
    assert ls[..2] == [a, b];
    assert ls[..2][..1] == [a];
    assert [a][..0] == [];
    assert KeptLines([a]) == (if HasText(a) then [AfterStamp(a)] else []);
    assert KeptLines([a, b]) == KeptLines([a]) + (if HasText(b) then [AfterStamp(b)] else []);
  }

  lemma KeptOfTwo(a: seq<byte>, b: seq<byte>)
    ensures KeptLines([a, b]) ==
      (if HasText(a) then [AfterStamp(a)] else []) +
      (if HasText(b) then [AfterStamp(b)] else [])
  {
    assert [a, b][..1] == [a];
    assert [a][..0] == [];
    assert KeptLines([a]) == (if HasText(a) then [AfterStamp(a)] else []);
  }

  lemma StampThenBlank(stamp: seq<byte>, blank: seq<byte>)
    requires CloseBracket !in stamp
    requires |blank| > 0 && forall k :: 0 <= k < |blank| ==> blank[k] == 0x20
    ensures HasText(stamp + [CloseBracket] + blank)
    ensures AfterStamp(stamp + [CloseBracket] + blank) == []
  {
    StampedLine(stamp, blank);
    AsciiBlankTrimsToNothing(blank);
  }

  /** A stamp followed only by white space is not dropped: it is kept as an
      empty line, because the test looks at the `]` before trimming. So a
      stamped line holding one blank, then a stamped line, give a newline and
      then the text. */
  lemma BlankStampedLineKeptEmpty(stamp: seq<byte>, stamp2: seq<byte>, text: seq<byte>)
    requires CloseBracket !in stamp && Newline !in stamp && CloseBracket !in stamp2 && Newline !in stamp2
    requires |text| > 0 && Newline !in text
    ensures Stripped((stamp + [CloseBracket, 0x20]) + [Newline] + (stamp2 + [CloseBracket] + text))
      == [Newline] + TrimSpace(text)
  {
    BlankStampLine(stamp);
    StampedLine(stamp2, text);
    StrippedOfTwo(stamp + [CloseBracket, 0x20], stamp2 + [CloseBracket] + text);
  }

  /** A stamp followed by one blank is kept, as an empty line. */
  lemma BlankStampLine(stamp: seq<byte>)
    requires CloseBracket !in stamp && Newline !in stamp
    ensures HasText(stamp + [CloseBracket, 0x20]) && AfterStamp(stamp + [CloseBracket, 0x20]) == []
    ensures Newline !in stamp + [CloseBracket, 0x20]
  {
    assert stamp + [CloseBracket, 0x20] == stamp + [CloseBracket] + [0x20];
    StampThenBlank(stamp, [0x20]);
  }

  /** Two lines joined by a newline that both have text are stripped to
      their texts joined by a newline. */
  lemma StrippedOfTwo(l1: seq<byte>, l2: seq<byte>)
    requires Newline !in l1 && Newline !in l2 && HasText(l1) && HasText(l2)
    ensures Stripped(l1 + [Newline] + l2) == AfterStamp(l1) + [Newline] + AfterStamp(l2)
  {
    JoinTwo(l1, l2, Newline);
    SplitJoin([l1, l2], Newline);
    KeptOfTwo(l1, l2);
    JoinTwo(AfterStamp(l1), AfterStamp(l2), Newline);
  }

  /** A line without `]`, a stamped line and a bare stamp give the stamped
      line's text alone. */
  lemma PlainStampedBare(plain: seq<byte>, stamp: seq<byte>, text: seq<byte>, bare: seq<byte>)
    requires CloseBracket !in plain && CloseBracket !in stamp && CloseBracket !in bare
    requires Newline !in plain && Newline !in stamp && Newline !in text && Newline !in bare
    requires |text| > 0
    ensures Stripped(plain + [Newline] + (stamp + [CloseBracket] + text) + [Newline] + (bare + [CloseBracket]))
      == TrimSpace(text)
  {
    var l2, l3 := stamp + [CloseBracket] + text, bare + [CloseBracket];
    var input := plain + [Newline] + l2 + [Newline] + l3;
    assert Split(input, Newline) == [plain, l2, l3] by {
      JoinThree(plain, l2, l3, Newline);
      SplitJoin([plain, l2, l3], Newline);
    }
    NoBracketDropped(plain);
    StampedLine(stamp, text);
    BareStampDropped(bare);
    KeptOfThree(plain, l2, l3);
  }

  /** One stamped line whose text is already trimmed and holds no `]` gives
      that text. */
  lemma OneStampedLine(stamp: seq<byte>, text: seq<byte>)
    requires CloseBracket !in stamp && Newline !in stamp
    requires |text| > 0 && Newline !in text
    requires LeadingSpaceLen(text) == 0 && TrailingSpaceLen(text) == 0
    ensures Stripped(stamp + [CloseBracket] + text) == text
  {
    var line := stamp + [CloseBracket] + text;
    assert Newline !in line;
    assert Split(line, Newline) == [line];
    StampedLine(stamp, text);
    TrimSpaceKeepsTrimmed(text);
    assert [line][..0] == [];
    assert KeptLines([line]) == [text];
  }

  /** Stripping is not idempotent: stripping the output of a stamped line
      again drops it, because the text no longer holds a `]`. */
  lemma StrippingTwiceDropsText(stamp: seq<byte>, text: seq<byte>)
    requires CloseBracket !in stamp && Newline !in stamp
    requires |text| > 0 && Newline !in text && CloseBracket !in text
    requires LeadingSpaceLen(text) == 0 && TrailingSpaceLen(text) == 0
    ensures Stripped(stamp + [CloseBracket] + text) == text
    ensures Stripped(Stripped(stamp + [CloseBracket] + text)) == []
  {
    OneStampedLine(stamp, text);
    NoBracketDropped(text);
    assert Split(text, Newline) == [text];
    assert [text][..0] == [];
    assert KeptLines([text]) == [];
  }

  // ---------------------------------------------------------------------
  // Worked examples (ASCII bytes, the text in the comment)
  // ---------------------------------------------------------------------

  // "no bracket here"
  const NoBracketHere: seq<byte> := [0x6E, 0x6F, 0x20, 0x62, 0x72, 0x61, 0x63, 0x6B, 0x65, 0x74, 0x20, 0x68, 0x65, 0x72, 0x65]
  // "[00:01" and "[00:02"
  const Stamp01: seq<byte> := [0x5B, 0x30, 0x30, 0x3A, 0x30, 0x31]
  const Stamp02: seq<byte> := [0x5B, 0x30, 0x30, 0x3A, 0x30, 0x32]
  // "hello"
  const Hello: seq<byte> := [0x68, 0x65, 0x6C, 0x6C, 0x6F]

  /** " hello" trims to "hello". */
  lemma SpacedHelloTrims(text: seq<byte>)
    requires text == [0x20] + Hello
    ensures TrimSpace(text) == Hello
  {
    assert LeadingSpaceLen(text) == 1;
    assert text[1..] == Hello;
    assert LeadingSpaceLen(Hello) == 0;
    assert LeftSpaceCount(text) == 1;
    assert TrailingSpaceLen(Hello) == 0;
  }

  /** "no bracket here\n[00:01] hello\n[00:02]" is stripped to "hello". */
  lemma StripExample(input: seq<byte>)
    requires input == NoBracketHere + [Newline] + (Stamp01 + [CloseBracket] + ([0x20] + Hello)) +
      [Newline] + (Stamp02 + [CloseBracket])
    ensures Stripped(input) == Hello
  {
    PlainStampedBare(NoBracketHere, Stamp01, [0x20] + Hello, Stamp02);
    SpacedHelloTrims([0x20] + Hello);
  }
}
