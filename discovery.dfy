/** `findWAVFiles` (main.go:73-85): the WAV files below the source
    directory, in the order the directory walk reports them. The walk
    itself is abstracted into the sequence of calls it makes to the
    callback. */
module Discovery {
  import opened Outcomes
  import opened Text

  /** One call of the walk callback: a path that could be inspected, or the
      error the walk met at a path (main.go:75-78). */
  datatype WalkEvent =
    | Visit(path: string, isDir: bool)
    | Fail(path: string, err: Error)

  /** `filepath.Ext` with `/` as separator: the suffix of `p` from the last
      `.` of its final element, or nothing when that element has no `.`. */
  function Ext(p: string): (e: string)
    ensures |e| <= |p| && e == p[|p| - |e|..]
    ensures e != [] ==> e[0] == '.' && forall k :: 1 <= k < |e| ==> e[k] != '.' && e[k] != '/'
  {
    if |p| == 0 || p[|p| - 1] == '/' then []
    else if p[|p| - 1] == '.' then ['.']
    else
      var e := Ext(p[..|p| - 1]);
      if e == [] then [] else e + [p[|p| - 1]]
  }

  /** Every dot of the path has a slash after it: the path's final element
      holds no dot. */
  predicate DotsClosed(p: string) {
    forall k :: 0 <= k < |p| && p[k] == '.' ==> exists j :: k < j < |p| && p[j] == '/'
  }

  /** A path ending in a slash has every dot closed. */
  lemma SlashEndCloses(p: string)
    requires |p| > 0 && p[|p| - 1] == '/'
    ensures DotsClosed(p)
  {
    forall k | 0 <= k < |p| && p[k] == '.' ensures exists j :: k < j < |p| && p[j] == '/' {
      var j := |p| - 1;
      assert p[j] == '/';
    }
  }

  /** A path ending in a dot has that dot open. */
  lemma DotEndOpens(p: string)
    requires |p| > 0 && p[|p| - 1] == '.'
    ensures !DotsClosed(p)
  {
    assert p[|p| - 1] == '.';
  }

  /** A last character that is neither a dot nor a slash changes nothing. */
  lemma OtherEndKeeps(p: string)
    requires |p| > 0 && p[|p| - 1] != '/' && p[|p| - 1] != '.'
    ensures DotsClosed(p) <==> DotsClosed(p[..|p| - 1])
  {
    var init := p[..|p| - 1];
    forall k | 0 <= k < |init| && init[k] == '.'
      ensures (exists j :: k < j < |init| && init[j] == '/') <==> (exists j :: k < j < |p| && p[j] == '/')
    {
      if exists j :: k < j < |p| && p[j] == '/' {
        var j :| k < j < |p| && p[j] == '/';
        assert init[j] == '/';
      }
    }
  }

  /** A path has no extension exactly when every dot in it has a slash
      after it. */
  lemma {:induction false} ExtEmpty(p: string)
    ensures Ext(p) == [] <==> DotsClosed(p)
    decreases |p|
  {
    if |p| > 0 {
      if p[|p| - 1] == '/' {
        SlashEndCloses(p);
      } else if p[|p| - 1] == '.' {
        DotEndOpens(p);
      } else {
        ExtEmpty(p[..|p| - 1]);
        OtherEndKeeps(p);
      }
    }
  }

  /** The selection test of main.go:79 for a path that is not a directory. */
  predicate IsWav(p: string) {
    Lower(Ext(p)) == ".wav"
  }

  /** When `p[i]` is a dot and no dot or slash follows it, the extension
      starts at `i`. */
  lemma {:induction false} ExtFrom(p: string, i: nat)
    requires i < |p| && p[i] == '.'
    requires forall k :: i < k < |p| ==> p[k] != '.' && p[k] != '/'
    ensures Ext(p) == p[i..]
    decreases |p|
  {
    var last := p[|p| - 1];
    if i == |p| - 1 {
      assert p[i..] == [last];
    } else {
      var init := p[..|p| - 1];
      assert last != '.' && last != '/';
      ExtFrom(init, i);
      assert Ext(p) == init[i..] + [last];
      assert init[i..] + [last] == p[i..];
    }
  }

  /** A lower-cased character is a small letter or a dot only if it was that
      letter in either case, or that dot. */
  lemma LowerRuneTo(c: char, d: char)
    requires 'a' <= d <= 'z' && d != 'i' && d != 'k'
    ensures LowerRune(c) == d <==> c == d || c as int == d as int - 32
    ensures LowerRune(c) == '.' <==> c == '.'
  {
  }

  /** An accepted path ends in `.wav`, in either case. */
  lemma WavSuffixOfAccepted(p: string)
    requires IsWav(p)
    ensures |p| >= 4 && Lower(p[|p| - 4..]) == ".wav"
  {
    assert |Ext(p)| == 4;
  }

  /** A path whose last four characters lower-case to `.wav` ends in a dot
      and three characters that are neither dots nor slashes. */
  lemma WavLetters(p: string)
    requires |p| >= 4 && Lower(p[|p| - 4..]) == ".wav"
    ensures p[|p| - 4] == '.'
    ensures forall k :: |p| - 4 < k < |p| ==> p[k] != '.' && p[k] != '/'
  {
    var n := |p| - 4;
    assert LowerRune(p[n]) == '.' && LowerRune(p[n + 1]) == 'w';
    assert LowerRune(p[n + 2]) == 'a' && LowerRune(p[n + 3]) == 'v';
    LowerRuneTo(p[n], 'w');
    LowerRuneTo(p[n + 1], 'w');
    LowerRuneTo(p[n + 2], 'a');
    LowerRuneTo(p[n + 3], 'v');
  }

  /** The selection test is a case-insensitive comparison of the last four
      characters with `.wav`, in both directions. */
  lemma IsWavIffSuffix(p: string)
    ensures IsWav(p) <==> |p| >= 4 && Lower(p[|p| - 4..]) == ".wav"
  {
    if IsWav(p) {
      WavSuffixOfAccepted(p);
    }
    if |p| >= 4 && Lower(p[|p| - 4..]) == ".wav" {
      WavLetters(p);
      ExtFrom(p, |p| - 4);
    }
  }

  /** Upper-case extensions are accepted. */
  lemma UpperCaseAccepted(p: string)
    requires p == "A.WAV"
    ensures IsWav(p)
  {
    IsWavIffSuffix(p);
    assert Lower(p[1..]) == ".wav";
  }

  /** Only the last extension counts. */
  lemma DoubleExtensionRejected(p: string)
    requires p == "x.wav.mp3"
    ensures !IsWav(p)
  {
    IsWavIffSuffix(p);
    assert Lower(p[5..])[1] == 'm';
  }

  /** Whether the callback collects the path of an event (main.go:79). */
  predicate Collects(ev: WalkEvent) {
    ev.Visit? && !ev.isDir && IsWav(ev.path)
  }

  /** The paths of the events that `select` accepts, in walk order: what the
      callback accumulates (main.go:80). */
  function Selected(events: seq<WalkEvent>, select: WalkEvent -> bool): (paths: seq<string>)
    ensures |paths| <= |events|
  {
    if |events| == 0 then []
    else
      var last := events[|events| - 1];
      Selected(events[..|events| - 1], select) + (if select(last) then [last.path] else [])
  }

  /** Selecting from a concatenation selects from each part in turn: the
      order of the walk is kept. */
  lemma {:induction false} SelectedConcat(a: seq<WalkEvent>, b: seq<WalkEvent>, select: WalkEvent -> bool)
    ensures Selected(a + b, select) == Selected(a, select) + Selected(b, select)
    decreases |b|
  {
    if |b| == 0 {
      assert a + b == a;
    } else {
      assert (a + b)[..|a + b| - 1] == a + b[..|b| - 1];
      SelectedConcat(a, b[..|b| - 1], select);
    }
  }

  /** A path is selected exactly when some accepted event has it. */
  lemma {:induction false} SelectedMembers(events: seq<WalkEvent>, select: WalkEvent -> bool, p: string)
    ensures p in Selected(events, select) <==>
      exists k :: 0 <= k < |events| && select(events[k]) && events[k].path == p
  {
    if |events| > 0 {
      var init, last := events[..|events| - 1], events[|events| - 1];
      SelectedMembers(init, select, p);
      if p in Selected(init, select) {
        var k :| 0 <= k < |init| && select(init[k]) && init[k].path == p;
        assert events[k] == init[k];
      } else if p in Selected(events, select) {
        assert select(events[|events| - 1]);
      } else {
        forall k | 0 <= k < |events| ensures !(select(events[k]) && events[k].path == p) {
          if k < |init| {
            assert events[k] == init[k];
          }
        }
      }
    }
  }

  /** The paths the callback collects from a run of events without errors. */
  function WavPaths(events: seq<WalkEvent>): seq<string>
  {
    Selected(events, Collects)
  }

  /** A path is collected exactly when some event visits it as a WAV file
      that is not a directory. */
  lemma WavPathsMembers(events: seq<WalkEvent>, p: string)
    ensures p in WavPaths(events) <==>
      exists k :: 0 <= k < |events| && events[k] == Visit(p, false) && IsWav(p)
  {
    SelectedMembers(events, Collects, p);
    if exists k :: 0 <= k < |events| && events[k] == Visit(p, false) && IsWav(p) {
      var k :| 0 <= k < |events| && events[k] == Visit(p, false) && IsWav(p);
      assert Collects(events[k]) && events[k].path == p;
    }
  }

  /** The position of the first error in the walk, or the walk's length
      when there is none. */
  function FirstFailure(events: seq<WalkEvent>): (k: nat)
    ensures k <= |events|
    ensures forall j :: 0 <= j < k ==> events[j].Visit?
    ensures k < |events| ==> events[k].Fail?
  {
    if |events| == 0 || events[0].Fail? then 0 else 1 + FirstFailure(events[1..])
  }

  /** `findWAVFiles`: walks the events, collecting as it goes; the first
      error ends the walk and is returned with the paths collected before
      it, and otherwise every WAV path is returned. */
  method FindWavFiles(walk: seq<WalkEvent>) returns (wavFiles: seq<string>, err: Option<Error>)
    ensures err.None? <==> forall j :: 0 <= j < |walk| ==> walk[j].Visit?
    ensures err.Some? ==> err == Some(walk[FirstFailure(walk)].err)
    ensures wavFiles == WavPaths(walk[..FirstFailure(walk)])
  {
    wavFiles := [];
    for i := 0 to |walk|
      invariant forall j :: 0 <= j < i ==> walk[j].Visit?
      invariant wavFiles == WavPaths(walk[..i])
    {
      var ev := walk[i];
      if ev.Fail? {
        FirstFailureAt(walk, i);
        return wavFiles, Some(ev.err);
      }
      assert walk[..i + 1][..i] == walk[..i];
      wavFiles := wavFiles + (if Collects(ev) then [ev.path] else []);
    }
    FirstFailureAt(walk, |walk|);
    assert walk[..|walk|] == walk;
    err := None;
  }

  /** The first error is at `i` when none comes before it. */
  lemma {:induction false} FirstFailureAt(events: seq<WalkEvent>, i: nat)
    requires i <= |events| && forall j :: 0 <= j < i ==> events[j].Visit?
    requires i < |events| ==> events[i].Fail?
    ensures FirstFailure(events) == i
  {
    if i > 0 {
      FirstFailureAt(events[1..], i - 1);
    }
  }

  /** A walk that visits a directory and then one WAV file in it meets no
      error and collects that file alone. */
  lemma DirectoryThenWav(dir: string, wav: string)
    requires IsWav(wav)
    ensures FirstFailure([Visit(dir, true), Visit(wav, false)]) == 2
    ensures WavPaths([Visit(dir, true), Visit(wav, false)]) == [wav]
  {
    FirstFailureAt([Visit(dir, true), Visit(wav, false)], 2);
    assert [Visit(dir, true), Visit(wav, false)][..1] == [Visit(dir, true)];
    assert [Visit(dir, true)][..0] == [];
    assert Selected([Visit(dir, true)], Collects) == [];
    assert Collects(Visit(wav, false));
    assert Selected([Visit(dir, true), Visit(wav, false)], Collects) == [] + [wav];
  }
}
