/** The UTF-8 encoding of runes, and the agreement of the byte-level
    white-space tables of `Text` (what `bytes.TrimSpace` decodes) with the
    rune-level `unicode.IsSpace`. */
module Runes {
  import opened Text

  /** The UTF-8 encoding of a rune: one byte below U+0080, two below U+0800,
      three below U+10000 and four above. The first byte is never a
      continuation byte and every later byte is one. */
  function Utf8(c: char): (b: seq<byte>)
    ensures 1 <= |b| <= 4
    ensures !(0x80 <= b[0] < 0xC0)
    ensures forall k :: 1 <= k < |b| ==> 0x80 <= b[k] < 0xC0
  {
    var n := c as int;
    if n < 0x80 then [n as byte]
    else if n < 0x800 then [(0xC0 + n / 0x40) as byte, (0x80 + n % 0x40) as byte]
    else if n < 0x10000 then
      [(0xE0 + n / 0x1000) as byte, (0x80 + n / 0x40 % 0x40) as byte, (0x80 + n % 0x40) as byte]
    else
      [(0xF0 + n / 0x40000) as byte, (0x80 + n / 0x1000 % 0x40) as byte,
       (0x80 + n / 0x40 % 0x40) as byte, (0x80 + n % 0x40) as byte]
  }

  /** The rune whose encoding `LeadingSpaceLen` found at the front of `s`. */
  function SpaceRuneAt(s: seq<byte>): char
    requires LeadingSpaceLen(s) > 0
  {
    if IsAsciiSpace(s[0]) then s[0] as int as char
    else if IsSpace2(s[0], s[1]) then s[1] as int as char
    else Space3Rune(s[0], s[1], s[2])
  }

  /** The rune of a three-byte white-space encoding. */
  function Space3Rune(b0: byte, b1: byte, b2: byte): char
    requires IsSpace3(b0, b1, b2)
  {
    if b0 == 0xE1 then '\U{1680}'
    else if b0 == 0xE3 then '\U{3000}'
    else if b1 == 0x81 then '\U{205F}'
    else (0x2000 + (b2 as int - 0x80)) as char
  }

  /** Every three-byte white-space encoding encodes a white-space rune. */
  lemma Space3IsRune(b0: byte, b1: byte, b2: byte)
    requires IsSpace3(b0, b1, b2)
    ensures IsSpaceRune(Space3Rune(b0, b1, b2)) && Utf8(Space3Rune(b0, b1, b2)) == [b0, b1, b2]
  {
  }

  /** Every white-space prefix the byte table accepts is the encoding of a
      white-space rune. */
  lemma SpacePrefixIsRune(s: seq<byte>)
    requires LeadingSpaceLen(s) > 0
    ensures IsSpaceRune(SpaceRuneAt(s)) && Utf8(SpaceRuneAt(s)) == s[..LeadingSpaceLen(s)]
  {
    var c := SpaceRuneAt(s);
    if IsAsciiSpace(s[0]) {
      assert Utf8(c) == [s[0]];
    } else if IsSpace2(s[0], s[1]) {
      assert Utf8(c) == [0xC2, s[1]];
    } else {
      Space3IsRune(s[0], s[1], s[2]);
      assert s[..3] == [s[0], s[1], s[2]];
    }
  }

  /** The encoding of every white-space rune is accepted by the byte table,
      whole. */
  lemma SpaceRuneReads(c: char)
    requires IsSpaceRune(c)
    ensures LeadingSpaceLen(Utf8(c)) == |Utf8(c)|
  {
    var n := c as int;
    if n < 0x80 {
      assert Utf8(c) == [n as byte];
    } else if n < 0x800 {
      assert Utf8(c) == [0xC2, n as byte];
    } else {
      var b := Utf8(c);
      Space3Reads(c);
      assert IsSpace3(b[0], b[1], b[2]) && !IsAsciiSpace(b[0]) && !IsSpace2(b[0], b[1]);
    }
  }

  /** The encoding of a white-space rune from U+0800 up has three bytes and
      is in the three-byte table. */
  lemma Space3Reads(c: char)
    requires IsSpaceRune(c) && c as int >= 0x800
    ensures |Utf8(c)| == 3 && IsSpace3(Utf8(c)[0], Utf8(c)[1], Utf8(c)[2])
  {
    var n := c as int;
    if c == '\U{1680}' {
      assert Utf8(c) == [0xE1, 0x9A, 0x80];
    } else if c == '\U{205F}' {
      assert Utf8(c) == [0xE2, 0x81, 0x9F];
    } else if c == '\U{3000}' {
      assert Utf8(c) == [0xE3, 0x80, 0x80];
    } else {
      assert Utf8(c) == [0xE2, 0x80, (0x80 + (n - 0x2000)) as byte];
    }
  }

  /** Bytes that start with the encoding of a white-space rune start with a
      white-space rune of that many bytes. */
  lemma EncodedSpaceLeads(s: seq<byte>, c: char)
    requires IsSpaceRune(c) && |Utf8(c)| <= |s| && s[..|Utf8(c)|] == Utf8(c)
    ensures LeadingSpaceLen(s) == |Utf8(c)|
  {
    var b := Utf8(c);
    SpaceRuneReads(c);
    assert b[..|b|] == b;
    LeadingSpaceLenPrefix(b, s);
  }

  /** The bytes start with a white-space rune of `n` bytes exactly when their
      first `n` bytes are the UTF-8 encoding of a rune `unicode.IsSpace`
      accepts. */
  lemma LeadingSpaceIsUtf8(s: seq<byte>, n: nat)
    ensures (0 < n && LeadingSpaceLen(s) == n) <==>
      (n <= |s| && exists c :: IsSpaceRune(c) && |Utf8(c)| == n && s[..n] == Utf8(c))
  {
    if 0 < n && LeadingSpaceLen(s) == n {
      SpacePrefixIsRune(s);
      var c := SpaceRuneAt(s);
      assert IsSpaceRune(c) && |Utf8(c)| == n && s[..n] == Utf8(c);
    }
    if n <= |s| && exists c :: IsSpaceRune(c) && |Utf8(c)| == n && s[..n] == Utf8(c) {
      var c :| IsSpaceRune(c) && |Utf8(c)| == n && s[..n] == Utf8(c);
      EncodedSpaceLeads(s, c);
    }
  }

  /** A white-space rune that reads forwards from the last `n` bytes is the
      one found backwards: the converse of `TrailingSpaceReadsForward`. */
  lemma TrailingFromLeading(s: seq<byte>, n: nat)
    requires 0 < n <= |s| && LeadingSpaceLen(s[|s| - n..]) == n
    ensures TrailingSpaceLen(s) == n
  {
    var t := s[|s| - n..];
    if n >= 2 {
      assert s[|s| - 1] == t[n - 1] && s[|s| - 2] == t[n - 2];
    }
    if n == 3 {
      assert s[|s| - 3] == t[0];
    }
  }

  /** The bytes end with a white-space rune of `n` bytes exactly when their
      last `n` bytes are the UTF-8 encoding of a rune `unicode.IsSpace`
      accepts. */
  lemma TrailingSpaceIsUtf8(s: seq<byte>, n: nat)
    ensures (0 < n && TrailingSpaceLen(s) == n) <==>
      (n <= |s| && exists c :: IsSpaceRune(c) && |Utf8(c)| == n && s[|s| - n..] == Utf8(c))
  {
    if n <= |s| {
      var t := s[|s| - n..];
      assert t[..n] == t;
      LeadingSpaceIsUtf8(t, n);
      if 0 < n && TrailingSpaceLen(s) == n {
        TrailingSpaceReadsForward(s);
      }
      if 0 < n && LeadingSpaceLen(t) == n {
        TrailingFromLeading(s, n);
      }
    }
  }
}
