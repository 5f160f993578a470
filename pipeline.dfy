/** The per-file pipeline `processFile` (main.go:87-101), the wrapper
    `transcribe` around the speech recogniser (main.go:115-126) and the loop
    of the command (main.go:46-67). The recogniser, the summarizer and the
    file system are oracles: functions from what the program hands them to
    what they answer. */
module Pipeline {
  import opened Outcomes
  import opened Text
  import opened Timestamps
  import opened Filenames
  import opened Discovery

  /** A call of `os.WriteFile`: the directory the file is joined to, the
      file's name and the bytes written. */
  datatype WriteCall = WriteCall(dir: string, name: string, content: seq<byte>)

  /** What the outside world answers: the recogniser's standard output for a
      WAV path, the summarizer's title for a transcript, and the outcome of a
      write. */
  datatype Env = Env(
    recognise: string -> Result<seq<byte>>,
    summarize: seq<byte> -> Result<string>,
    write: WriteCall -> Option<Error>)

  /** The extension appended to every stem (main.go:98). */
  const NoteExtension: string := ".md"

  /** `transcribe`: the recogniser's output with its timestamps removed, or
      its error wrapped (main.go:121-125). */
  function Transcribe(env: Env, wav: string): (r: Result<seq<byte>>)
    ensures r.Success? <==> env.recognise(wav).Success?
    ensures r.Success? ==> r.value == Stripped(env.recognise(wav).value)
    ensures r.Failure? ==> r.error == Wrapped("whisper failed ", env.recognise(wav).error)
  {
    match env.recognise(wav)
    case Failure(e) => Failure(Wrapped("whisper failed ", e))
    case Success(out) => Success(Stripped(out))
  }

  /** The name of the note for a title. */
  function NoteName(title: string): (name: string)
    ensures |NoteExtension| <= |name| <= MaxStemLength + |NoteExtension|
    ensures name[|name| - |NoteExtension|..] == NoteExtension
    ensures forall k :: 0 <= k < |name| - |NoteExtension| ==> StemChar(name[k])
  {
    var stem := CleanFilename(title);
    var name := stem + NoteExtension;
    assert name[|stem|..] == NoteExtension;
    assert forall k :: 0 <= k < |stem| ==> name[k] == stem[k] && stem[k] in stem;
    name
  }

  /** What `processFile` returns, with the write it attempted, if any. */
  datatype FileOutcome = FileOutcome(name: string, attempted: Option<WriteCall>, err: Option<Error>)

  /** `processFile`: transcribe, summarise, name the note, write it. The
      first step that fails ends the file; the name is returned even when
      the write fails. */
  function ProcessFile(env: Env, destDir: string, wav: string): (r: FileOutcome)
    ensures r.attempted.Some? <==>
      Transcribe(env, wav).Success? && env.summarize(Transcribe(env, wav).value).Success?
    ensures Transcribe(env, wav).Failure? ==> r == FileOutcome("", None, Some(Transcribe(env, wav).error))
    ensures r.attempted.None? ==> r.name == "" && r.err.Some?
    ensures r.attempted.Some? ==> r.err == env.write(r.attempted.value) && r.name == r.attempted.value.name
  {
    match Transcribe(env, wav)
    case Failure(e) => FileOutcome("", None, Some(e))
    case Success(transcript) =>
      match env.summarize(transcript)
      case Failure(e) => FileOutcome("", None, Some(Wrapped("failed to create summary: ", e)))
      case Success(title) =>
        var call := WriteCall(destDir, NoteName(title), transcript);
        FileOutcome(call.name, Some(call), env.write(call))
  }

  /** A failing summary is reported with its context and nothing is written. */
  lemma SummaryFailureWritesNothing(env: Env, destDir: string, wav: string)
    requires Transcribe(env, wav).Success?
    requires env.summarize(Transcribe(env, wav).value).Failure?
    ensures ProcessFile(env, destDir, wav) ==
      FileOutcome("", None, Some(Wrapped("failed to create summary: ", env.summarize(Transcribe(env, wav).value).error)))
  {
  }

  /** The write a file gets: into the destination directory, named after
      the summary of its stripped transcript, holding that transcript. */
  lemma WrittenNote(env: Env, destDir: string, wav: string)
    requires ProcessFile(env, destDir, wav).attempted.Some?
    ensures var raw := env.recognise(wav).value;
      var title := env.summarize(Stripped(raw)).value;
      ProcessFile(env, destDir, wav).attempted.value ==
        WriteCall(destDir, CleanFilename(title) + NoteExtension, Stripped(raw))
  {
  }

  /** The message of a file that failed, with the context the loop adds
      (main.go:63). */
  function FileError(wav: string, e: Error): (w: Error)
    ensures w.Wrapped? && w.cause == e
  {
    Wrapped("failed to process " + wav + ": ", e)
  }

  /** The writes the loop makes over `files` and its error, if any, when
      `step` processes one file: files are processed in order and the first
      failure ends the loop. */
  function Batch(step: string -> FileOutcome, files: seq<string>): (r: (seq<WriteCall>, Option<Error>))
    ensures |r.0| <= |files|
  {
    if |files| == 0 then ([], None)
    else
      var (writes, err) := Batch(step, files[..|files| - 1]);
      if err.Some? then (writes, err)
      else
        var wav := files[|files| - 1];
        var o := step(wav);
        var writes' := writes + (if o.attempted.Some? then [o.attempted.value] else []);
        if o.err.Some? then (writes', Some(FileError(wav, o.err.value))) else (writes', None)
  }

  /** When every file succeeds, each gets exactly the write it attempted,
      in order, and the loop reports no error. */
  lemma {:induction false} BatchAllSucceed(step: string -> FileOutcome, files: seq<string>)
    requires forall i :: 0 <= i < |files| ==> step(files[i]).err.None? && step(files[i]).attempted.Some?
    ensures Batch(step, files).1.None?
    ensures |Batch(step, files).0| == |files|
    ensures forall i :: 0 <= i < |files| ==> Batch(step, files).0[i] == step(files[i]).attempted.value
  {
    if |files| > 0 {
      BatchAllSucceed(step, files[..|files| - 1]);
    }
  }

  /** Once the loop has failed, later files change nothing. */
  lemma {:induction false} BatchStopped(step: string -> FileOutcome, files: seq<string>, more: seq<string>)
    requires Batch(step, files).1.Some?
    ensures Batch(step, files + more) == Batch(step, files)
    decreases |more|
  {
    if |more| > 0 {
      var init := more[..|more| - 1];
      assert (files + more)[..|files + more| - 1] == files + init;
      BatchStopped(step, files, init);
    } else {
      assert files + more == files;
    }
  }

  /** The loop stops at the first file that fails: the files before it
      are all written, its error is returned with its path, and no file
      after it is touched. */
  lemma BatchFirstFailure(step: string -> FileOutcome, files: seq<string>, k: nat)
    requires k < |files| && step(files[k]).err.Some?
    requires forall i :: 0 <= i < k ==> step(files[i]).err.None? && step(files[i]).attempted.Some?
    ensures Batch(step, files) == Batch(step, files[..k + 1])
    ensures Batch(step, files).1 == Some(FileError(files[k], step(files[k]).err.value))
    ensures |Batch(step, files).0| >= k
    ensures forall i :: 0 <= i < k ==> Batch(step, files).0[i] == step(files[i]).attempted.value
  {
    var pre := files[..k + 1];
    assert pre[..k] == files[..k];
    BatchAllSucceed(step, files[..k]);
    assert files == pre + files[k + 1..];
    BatchStopped(step, pre, files[k + 1..]);
  }

  /** One more file after a loop that has not failed. */
  lemma BatchLast(step: string -> FileOutcome, files: seq<string>, wav: string)
    requires Batch(step, files).1.None?
    ensures Batch(step, files + [wav]).0 ==
      Batch(step, files).0 + (if step(wav).attempted.Some? then [step(wav).attempted.value] else [])
    ensures Batch(step, files + [wav]).1 ==
      (if step(wav).err.Some? then Some(FileError(wav, step(wav).err.value)) else None)
  {
    assert (files + [wav])[..|files|] == files;
  }

  /** `processFile` as the step of the loop. */
  function FileStep(env: Env, destDir: string): string -> FileOutcome {
    wav => ProcessFile(env, destDir, wav)
  }

  /** With `processFile` as the step, every file that is processed without
      error is written. */
  lemma SuccessMeansWritten(env: Env, destDir: string, wav: string)
    requires FileStep(env, destDir)(wav).err.None?
    ensures FileStep(env, destDir)(wav).attempted.Some?
  {
  }

  /** The outcome of the command: its writes and the error it returns. A
      walk error writes nothing, every write belongs to a WAV file found, and
      a command that succeeds met no walk error. */
  function Command(env: Env, walk: seq<WalkEvent>, destDir: string): (r: (seq<WriteCall>, Option<Error>))
    ensures FirstFailure(walk) < |walk| ==> r.0 == [] && r.1.Some?
    ensures |r.0| <= |WavPaths(walk)|
    ensures r.1.None? ==> forall j :: 0 <= j < |walk| ==> walk[j].Visit?
  {
    var k := FirstFailure(walk);
    if k < |walk| then ([], Some(Wrapped("unable to find WAV source files: ", walk[k].err)))
    else Batch(FileStep(env, destDir), WavPaths(walk))
  }

  /** The loop of the command (main.go:59-66) with `step` processing one
      file: files are processed in order, each attempted write is made, and
      the first failure is returned with its path at once. */
  method ProcessAll(step: string -> FileOutcome, files: seq<string>)
    returns (writes: seq<WriteCall>, err: Option<Error>)
    ensures (writes, err) == Batch(step, files)
  {
    writes := [];
    for i := 0 to |files|
      invariant writes == Batch(step, files[..i]).0 && Batch(step, files[..i]).1.None?
    {
      var wav := files[i];
      var o := step(wav);
      assert files[..i + 1] == files[..i] + [wav];
      BatchLast(step, files[..i], wav);
      if o.attempted.Some? {
        writes := writes + [o.attempted.value];
      }
      if o.err.Some? {
        assert Batch(step, files[..i + 1]).0 == writes;
        assert Batch(step, files[..i + 1]).1 == Some(FileError(wav, o.err.value));
        BatchStopped(step, files[..i + 1], files[i + 1..]);
        assert files[..i + 1] + files[i + 1..] == files;
        return writes, Some(FileError(wav, o.err.value));
      }
    }
    assert files[..|files|] == files;
    err := None;
  }

  /** The command (main.go:51-67): find the WAV files, then process them in
      order with `processFile`, stopping at the first failure. Returns the
      files found and the writes made, in order. */
  method Run(env: Env, walk: seq<WalkEvent>, destDir: string)
    returns (found: seq<string>, writes: seq<WriteCall>, err: Option<Error>)
    ensures (writes, err) == Command(env, walk, destDir)
    ensures found == WavPaths(walk[..FirstFailure(walk)])
    ensures FirstFailure(walk) == |walk| ==> found == WavPaths(walk)
    ensures err.None? ==> found == WavPaths(walk)
  {
    var discoveryErr;
    found, discoveryErr := FindWavFiles(walk);
    if discoveryErr.Some? {
      return found, [], Some(Wrapped("unable to find WAV source files: ", discoveryErr.value));
    }
    assert walk[..FirstFailure(walk)] == walk;
    writes, err := ProcessAll(FileStep(env, destDir), found);
  }

  /** A failing walk writes nothing and reports the walk's error with its
      context. */
  lemma WalkFailureWritesNothing(env: Env, walk: seq<WalkEvent>, destDir: string, k: nat)
    requires k < |walk| && walk[k].Fail? && forall j :: 0 <= j < k ==> walk[j].Visit?
    ensures Command(env, walk, destDir) ==
      ([], Some(Wrapped("unable to find WAV source files: ", walk[k].err)))
  {
    FirstFailureAt(walk, k);
  }

  /** A source without WAV files writes nothing and succeeds. */
  lemma NoWavFilesNoWrites(env: Env, walk: seq<WalkEvent>, destDir: string)
    requires forall j :: 0 <= j < |walk| ==> walk[j].Visit? && (walk[j].isDir || !IsWav(walk[j].path))
    ensures Command(env, walk, destDir) == ([], None)
  {
    FirstFailureAt(walk, |walk|);
    var found := WavPaths(walk);
    if |found| > 0 {
      WavPathsMembers(walk, found[0]);
    }
  }

  /** A source holding one recording whose recogniser output has timestamped
      lines: one note is written, named after the summary and holding the
      lines without their stamps. */
  lemma OneRecording(env: Env, dir: string, wav: string, destDir: string, raw: seq<byte>, title: string)
    requires IsWav(wav)
    requires env.recognise(wav) == Success(raw) && env.summarize(Stripped(raw)) == Success(title)
    requires env.write(WriteCall(destDir, CleanFilename(title) + NoteExtension, Stripped(raw))) == None
    ensures Command(env, [Visit(dir, true), Visit(wav, false)], destDir) ==
      ([WriteCall(destDir, CleanFilename(title) + NoteExtension, Stripped(raw))], None)
  {
    DirectoryThenWav(dir, wav);
    FileWritten(env, destDir, wav, raw, title);
    BatchOfOne(FileStep(env, destDir), wav);
  }

  /** A file whose recognition, summary and write succeed is written once,
      with no error. */
  lemma FileWritten(env: Env, destDir: string, wav: string, raw: seq<byte>, title: string)
    requires env.recognise(wav) == Success(raw) && env.summarize(Stripped(raw)) == Success(title)
    requires env.write(WriteCall(destDir, CleanFilename(title) + NoteExtension, Stripped(raw))) == None
    ensures FileStep(env, destDir)(wav).attempted ==
      Some(WriteCall(destDir, CleanFilename(title) + NoteExtension, Stripped(raw)))
    ensures FileStep(env, destDir)(wav).err == None
  {
    assert Transcribe(env, wav) == Success(Stripped(raw));
  }

  /** A loop over one file that succeeds makes that file's write. */
  lemma BatchOfOne(step: string -> FileOutcome, wav: string)
    requires step(wav).attempted.Some? && step(wav).err.None?
    ensures Batch(step, [wav]) == ([step(wav).attempted.value], None)
  {
    assert [wav][..0] == [];
    assert Batch(step, []) == ([], None);
    assert [] + [step(wav).attempted.value] == [step(wav).attempted.value];
  }
}
