/** The three slice primitives of Go's `bytes` and `strings` packages that the
    program uses with a one-element separator: `Index`, `Split` and `Join`. */
module Seqs {

  /** `bytes.Index(s, []byte{x})`: the position of the first `x`, or -1. */
  function IndexOf<T(==)>(s: seq<T>, x: T): (i: int)
    ensures -1 <= i < |s|
    ensures i == -1 <==> x !in s
    ensures 0 <= i ==> s[i] == x && x !in s[..i]
  {
    if |s| == 0 then -1
    else if s[0] == x then 0
    else
      var j := IndexOf(s[1..], x);
      if j == -1 then -1 else j + 1
  }

  /** `bytes.Split(s, []byte{sep})`: the pieces between the separators, so
      one more piece than there are separators (an empty input gives one
      empty piece). */
  function Split<T(==)>(s: seq<T>, sep: T): (parts: seq<seq<T>>)
    ensures |parts| >= 1
    ensures forall p :: p in parts ==> sep !in p
    decreases |s|
  {
    var i := IndexOf(s, sep);
    if i == -1 then [s] else [s[..i]] + Split(s[i + 1..], sep)
  }

  /** `bytes.Join(parts, []byte{sep})`: the parts with one separator between
      neighbours; no parts give the empty slice. */
  function Join<T>(parts: seq<seq<T>>, sep: T): seq<T>
  {
    if |parts| == 0 then []
    else if |parts| == 1 then parts[0]
    else parts[0] + [sep] + Join(parts[1..], sep)
  }

  /** Every `a` of `s` replaced by `b`, all else unchanged. */
  function Replace<T(==)>(s: seq<T>, a: T, b: T): seq<T>
  {
    seq(|s|, i requires 0 <= i < |s| => if s[i] == a then b else s[i])
  }

  lemma ReplaceConcat<T>(x: seq<T>, y: seq<T>, a: T, b: T)
    ensures Replace(x + y, a, b) == Replace(x, a, b) + Replace(y, a, b)
  {
  }

  lemma ReplaceNoOccurrence<T>(s: seq<T>, a: T, b: T)
    requires a !in s
    ensures Replace(s, a, b) == s
  {
  }

  /** The first separator of `p + [sep] + q`, when `p` holds none, is the one
      between `p` and `q`. */
  lemma IndexOfFirstSeparator<T>(p: seq<T>, sep: T, q: seq<T>)
    requires sep !in p
    ensures IndexOf(p + [sep] + q, sep) == |p|
  {
    var s := p + [sep] + q;
    assert s[|p|] == sep;
    assert s[..|p|] == p;
  }

  /** Around its first separator, a text is the part before it, the
      separator and the rest, and splitting it splits off that part. */
  lemma AroundFirst<T>(s: seq<T>, sep: T)
    requires sep in s
    ensures s == s[..IndexOf(s, sep)] + [sep] + s[IndexOf(s, sep) + 1..]
    ensures Split(s, sep) == [s[..IndexOf(s, sep)]] + Split(s[IndexOf(s, sep) + 1..], sep)
  {
    AroundIndex(s, IndexOf(s, sep));
  }

  /** A sequence is the part before a position, the element there and the
      part after it. */
  lemma AroundIndex<T>(s: seq<T>, i: nat)
    requires i < |s|
    ensures s == s[..i] + [s[i]] + s[i + 1..]
  {
    assert s[..i] + [s[i]] == s[..i + 1];
  }

  /** Joining a part in front of at least one more part puts one separator
      after it. */
  lemma JoinCons<T>(head: seq<T>, parts: seq<seq<T>>, sep: T)
    requires |parts| >= 1
    ensures Join([head] + parts, sep) == head + [sep] + Join(parts, sep)
  {
    assert ([head] + parts)[1..] == parts;
  }

  /** Replacing in a text whose first `a` follows `head` replaces that `a`
      and what comes after it. */
  lemma ReplaceAround<T>(head: seq<T>, rest: seq<T>, a: T, b: T)
    requires a !in head
    ensures Replace(head + [a] + rest, a, b) == head + [b] + Replace(rest, a, b)
  {
    ReplaceNoOccurrence(head, a, b);
    ReplaceConcat(head, [a], a, b);
    ReplaceConcat(head + [a], rest, a, b);
  }

  /** Splitting on `a` and joining with `b` replaces each `a` by `b`: this is
      what `strings.Join(strings.Split(s, " "), "-")` computes. */
  lemma {:induction false} JoinSplitIsReplace<T>(s: seq<T>, a: T, b: T)
    ensures Join(Split(s, a), b) == Replace(s, a, b)
    decreases |s|
  {
    var i := IndexOf(s, a);
    if i == -1 {
      ReplaceNoOccurrence(s, a, b);
    } else {
      var head, rest := s[..i], s[i + 1..];
      AroundFirst(s, a);
      JoinSplitIsReplace(rest, a, b);
      JoinCons(head, Split(rest, a), b);
      ReplaceAround(head, rest, a, b);
    }
  }

  /** Splitting and joining again with the same separator gives back the input. */
  lemma JoinSplit<T>(s: seq<T>, sep: T)
    ensures Join(Split(s, sep), sep) == s
  {
    JoinSplitIsReplace(s, sep, sep);
    assert Replace(s, sep, sep) == s;
  }

  /** Joining parts that hold no separator and splitting again gives back the
      parts: the pieces of a joined result are exactly the joined parts. */
  lemma {:induction false} SplitJoin<T>(parts: seq<seq<T>>, sep: T)
    requires |parts| >= 1
    requires forall p :: p in parts ==> sep !in p
    ensures Split(Join(parts, sep), sep) == parts
  {
    if |parts| > 1 {
      var tail := parts[1..];
      assert forall p :: p in tail ==> p in parts;
      SplitJoin(tail, sep);
      JoinCons(parts[0], tail, sep);
      assert parts == [parts[0]] + tail;
      SplitAfterFirst(parts[0], sep, Join(tail, sep));
    }
  }

  /** Splitting a text whose first separator follows `head` splits `head` off. */
  lemma SplitAfterFirst<T>(head: seq<T>, sep: T, rest: seq<T>)
    requires sep !in head
    ensures Split(head + [sep] + rest, sep) == [head] + Split(rest, sep)
  {
    var s := head + [sep] + rest;
    IndexOfFirstSeparator(head, sep, rest);
    assert s[..|head|] == head;
    assert s[|head| + 1..] == rest;
  }

  lemma JoinTwo<T>(a: seq<T>, b: seq<T>, sep: T)
    ensures Join([a, b], sep) == a + [sep] + b
  {
    assert [a, b][1..] == [b];
  }

  lemma JoinThree<T>(a: seq<T>, b: seq<T>, c: seq<T>, sep: T)
    ensures Join([a, b, c], sep) == a + [sep] + b + [sep] + c
  {
    assert [b, c][1..] == [c];
    assert Join([b, c], sep) == b + [sep] + c;
    assert [a, b, c][1..] == [b, c];
  }
}
