# audio-quill in Dafny

audio-quill is a command-line tool. It walks a source directory for WAV recordings and transcribes each one with a local speech recogniser (whisper). It then removes the recogniser's bracketed timestamps from the transcript and asks a local summarizer (Ollama) for a short title. Finally it writes the transcript to `<destination>/<cleaned title>.md`. This project models the decision logic of `main.go` and proves properties about it:

- `Timestamps`: `removeTimestamps`, the transcript cleaner. It is a method with a loop, proved equal to the specification function `Stripped`.
- `Filenames`: `cleanFilename`, which turns a title into a file stem, together with the regular expression `[^a-zA-Z0-9 ]+` it uses. These are functions and lemmas.
- `Discovery`: `findWAVFiles`. The selection rule is `filepath.Ext`, lower-cased and compared with `.wav`. The accumulation in walk order is a method over the sequence of callback events.
- `Pipeline`:
  - `transcribe` (the part after the recogniser runs) and `processFile`, as functions over an environment of oracles.
  - The per-file loop of the command, as a method proved against the specification function `Batch`.
  - The whole command, `Run`.
- `Seqs`, `Text` and `Runes` hold the Go library behaviour the code relies on:
  - `bytes.Index`, `bytes.Split` and `bytes.Join` with a one-element separator.
  - `bytes.TrimSpace` on UTF-8 bytes, including the multi-byte white-space runes. `Runes` proves that its byte tables accept exactly the UTF-8 encodings of the runes `unicode.IsSpace` accepts.
  - `strings.TrimSpace` and `strings.ToLower` on runes.

Transcripts are byte sequences, as in the code. Titles and paths are character strings.

The outside world is a value of type `Pipeline.Env`. It holds three functions:
- the recogniser's standard output (or error) for a WAV path;
- the summarizer's answer for a transcript;
- the outcome of a write.

A run yields the sequence of write calls it made, in order.

Some behaviour of the code worth knowing:

- Stripping is not idempotent. A kept line whose text holds no `]` has lost its only `]`, so a second pass drops it (`Timestamps.StrippingTwiceDropsText`).
- The stem can end in a hyphen, because trimming comes before filtering: `x !` becomes `x-` (`Filenames.TrailingHyphen`).
- Cleaning a stem a second time deletes its hyphens (`Filenames.CleanFilenameNotIdempotent`).
- A stamp followed only by blanks is kept as an empty line, not dropped (`Timestamps.BlankStampedLineKeptEmpty`).
- Errors are not all wrapped with a file path. A discovery error gets only `unable to find WAV source files: `. A recogniser error gets `whisper failed ` with no separator.

## Model

| member | source | states |
|---|---|---|
| Seqs.Join | main.go:139 | definition of `bytes.Join` (and `strings.Join`, main.go:108): the parts with one separator between each pair; its meaning is stated by `Seqs.JoinSplit`, `Seqs.SplitJoin` and `Seqs.JoinSplitIsReplace` |
| Seqs.IndexOf | main.go:134 | the result is -1 exactly when the separator is absent; otherwise it is a position holding the separator with none before it |
| Seqs.IndexOfFirstSeparator | main.go:134 | the first separator of `p + [sep] + q` is at `|p|` when `p` holds none |
| Seqs.Split | main.go:129 | at least one piece, even for empty input; no piece holds the separator |
| Seqs.AroundFirst | main.go:129 | bytes holding the separator are the piece before its first occurrence, the separator and the rest; the split is that piece followed by the split of the rest |
| Seqs.SplitAfterFirst | main.go:129 | splitting a separator-free head, the separator and a rest gives the head followed by the pieces of the rest |
| Seqs.JoinCons | main.go:139 | proof step: joining a head in front of at least one part puts one separator between the head and the join of the parts |
| Seqs.JoinTwo | main.go:139 | proof step: two parts are joined with one separator between them |
| Seqs.JoinThree | main.go:139 | three parts are joined with one separator between each pair |
| Seqs.JoinSplit | main.go:129 | joining the pieces of a split with the same separator gives back the input |
| Seqs.SplitJoin | main.go:139 | splitting parts that hold no separator after joining them gives back exactly those parts |
| Seqs.JoinSplitIsReplace | main.go:108 | splitting on one element and joining with another replaces each occurrence one for one and leaves everything else |
| Seqs.ReplaceConcat | main.go:108 | replacing in a concatenation replaces in each part |
| Seqs.ReplaceNoOccurrence | main.go:108 | replacing an element that does not occur changes nothing |
| Seqs.ReplaceAround | main.go:108 | in a head free of the element, the element and a rest, only the element and the rest are rewritten |
| Text.LeadingSpaceLen | main.go:135 | the byte length, at most 3 and within the input, of the white-space rune the bytes start with, or 0; that the table accepts exactly the UTF-8 encodings of the runes `unicode.IsSpace` accepts is `Runes.LeadingSpaceIsUtf8` |
| Text.TrailingSpaceLen | main.go:135 | the byte length, at most 3 and within the input, of the white-space rune the bytes end with, or 0; that the table accepts exactly those encodings is `Runes.TrailingSpaceIsUtf8` |
| Text.LeadingSpaceLenPrefix | main.go:135 | proof step: reading the first rune looks only at the bytes it spans |
| Text.TrailingSpaceReadsForward | main.go:135 | proof step: a white-space rune found from the back reads the same from the front |
| Runes.Utf8 | main.go:135 | the UTF-8 encoding of a rune: one to four bytes, the first not a continuation byte and every later one a continuation byte |
| Runes.SpacePrefixIsRune | main.go:135 | proof step: every white-space prefix the byte table accepts is the encoding of a rune `unicode.IsSpace` accepts |
| Runes.SpaceRuneReads | main.go:135 | proof step: the encoding of every rune `unicode.IsSpace` accepts is accepted by the byte table, whole |
| Runes.LeadingSpaceIsUtf8 | main.go:135 | the bytes start with an `n`-byte white-space rune iff their first `n` bytes are the UTF-8 encoding of a rune `unicode.IsSpace` accepts (both directions) |
| Runes.TrailingFromLeading | main.go:135 | a white-space rune that reads forwards from the last `n` bytes is found backwards with length `n` |
| Runes.TrailingSpaceIsUtf8 | main.go:135 | the bytes end with an `n`-byte white-space rune iff their last `n` bytes are the UTF-8 encoding of a rune `unicode.IsSpace` accepts (both directions) |
| Text.SpaceRunConcat | main.go:135 | two runs of white-space runes make one run |
| Text.LeftSpaceCount | main.go:135 | the count of leading bytes removed is at most the length |
| Text.LeftSpaceCountStops | main.go:135 | what follows the removed bytes does not start with a white-space rune |
| Text.LeftSpaceCountIsSpaceRun | main.go:135 | the removed leading bytes are a run of whole white-space runes |
| Text.RightSpaceCount | main.go:135 | the count of trailing bytes removed is at most the length |
| Text.RightSpaceCountStops | main.go:135 | what precedes the removed bytes does not end with a white-space rune |
| Text.RightSpaceCountIsSpaceRun | main.go:135 | the removed trailing bytes are a run of whole white-space runes |
| Text.TrimSpace | main.go:135 | the result fits in the input after the removed leading bytes |
| Text.TrimmedEnd | main.go:135 | the kept bytes end between the removed leading bytes and the end of the input |
| Text.TrimSpaceIsSlice | main.go:135 | the input is the removed leading bytes, then the result, then the removed trailing bytes |
| Text.TrimSpaceEnds | main.go:135 | the result neither starts nor ends with a white-space rune |
| Text.TrimSpaceKeepsBytes | main.go:135 | a byte absent from the input is absent from the result |
| Text.TrimSpaceCutsSpace | main.go:135 | what is cut off behind the result is made of whole white-space runes (in front: `LeftSpaceCountIsSpaceRun`) |
| Text.TrimSpaceKeepsTrimmed | main.go:135 | bytes that neither start nor end with white space are unchanged |
| Text.TrimSpaceIdempotent | main.go:135 | trimming twice is trimming once |
| Text.AsciiBlankTrimsToNothing | main.go:135 | bytes that are all ASCII white space trim to the empty slice |
| Text.IsSpaceRune | main.go:106 | definition of `unicode.IsSpace`: U+0009-U+000D, U+0020, U+0085, U+00A0, U+1680, U+2000-U+200A, U+2028, U+2029, U+202F, U+205F, U+3000; its byte-level counterpart is stated by `Runes.LeadingSpaceIsUtf8` |
| Text.TrimSpaceRunes | main.go:106 | the result is the slice between the leading and trailing runs of white-space runes; everything cut is white space, and the result neither starts nor ends with any |
| Text.LeftRuneSpaces | main.go:106 | the leading runes counted are all white space, and the rune after them is not |
| Text.RightRuneSpaces | main.go:106 | the trailing runes counted are all white space, and the rune before them is not |
| Text.LowerRune | main.go:106 | an ASCII capital becomes its small letter; no result is an ASCII capital |
| Text.Lower | main.go:106 | same length, rune by rune lower case |
| Timestamps.HasText | main.go:134 | definition of the test on a line: its first `]` exists and is not its last byte; stated by `Timestamps.FirstBracketDecides` and `Timestamps.NoBracketDropped` |
| Timestamps.AfterStamp | main.go:135 | definition of what a kept line keeps: the bytes after its first `]`, trimmed; stated by `Timestamps.FirstBracketDecides` and `Timestamps.AfterStampHasNoNewline` |
| Timestamps.KeptLines | main.go:130-137 | definition of the collected lines: each line's trimmed text after its first `]`, in order, for the lines that pass the test; stated by `Timestamps.KeptIndices` and `Timestamps.KeptLinesAreSelected` |
| Timestamps.Stripped | main.go:128-140 | definition of the cleaned transcript: the kept lines joined by newlines; its lines are stated by `Timestamps.StrippedLines` and `Timestamps.NothingKeptIsEmpty` |
| Timestamps.RemoveTimestamps | main.go:128-140 | the loop computes exactly `Stripped`: the kept lines joined by newlines |
| Timestamps.KeptLinesStep | main.go:132-136 | proof step: one more line appends its trimmed text to the kept lines exactly when its first `]` is not its last byte |
| Timestamps.KeptOfTwo | main.go:132-136 | two lines keep each line's text that qualifies, in order |
| Timestamps.KeptOfThree | main.go:132-136 | three lines keep each line's text that qualifies, in order |
| Timestamps.KeptIndices | main.go:132-136 | the positions of kept lines, strictly increasing, containing a line's index exactly when its first `]` exists and is not its last byte |
| Timestamps.KeptLinesAreSelected | main.go:132-136 | the kept lines are, in order, the lines at those positions, each reduced to the trimmed text after its first `]` |
| Timestamps.FirstBracketDecides | main.go:134-135 | with `i` the first `]`, the line is kept iff `i` is not the last byte, and it keeps the trimmed text after `i` (later `]` included) |
| Timestamps.NoBracketDropped | main.go:134 | a line with no `]` is dropped |
| Timestamps.KeptLinesHaveNoNewline | main.go:129-135 | no kept line holds a newline |
| Timestamps.AfterStampHasNoNewline | main.go:135 | the trimmed text of a line without newline holds none |
| Timestamps.KeptLinesNoLonger | main.go:132-137 | no more lines are kept than there are input lines |
| Timestamps.StrippedLines | main.go:129-139 | when some line is kept, the output's newline-separated lines are exactly the kept lines (no trailing newline); the output never has more lines than the input |
| Timestamps.NothingKeptIsEmpty | main.go:139 | when no line qualifies the output is empty |
| Timestamps.StampedLine | main.go:134-135 | a stamp, a `]` and nonempty text keep exactly the trimmed text |
| Timestamps.BareStampDropped | main.go:134 | a line ending at its first `]` is dropped |
| Timestamps.StampThenBlank | main.go:134-135 | a stamp followed by blanks is kept, as an empty line |
| Timestamps.BlankStampLine | main.go:134-135 | a stamp, `]` and one space form a kept line whose text is empty |
| Timestamps.StrippedOfTwo | main.go:128-140 | two kept lines strip to their texts joined by one newline |
| Timestamps.SpacedHelloTrims | main.go:135 | a space then `hello` trims to `hello` |
| Timestamps.BlankStampedLineKeptEmpty | main.go:128-140 | a blank stamped line then a stamped line give a newline then the text |
| Timestamps.PlainStampedBare | main.go:128-140 | a line without `]`, a stamped line and a bare stamp give the stamped text alone |
| Timestamps.OneStampedLine | main.go:128-140 | one stamped line of trimmed text gives that text |
| Timestamps.StrippingTwiceDropsText | main.go:128-140 | stripping twice can differ from once: the second pass drops text that holds no `]` |
| Timestamps.StripExample | main.go:128-140 | `no bracket here\n[00:01] hello\n[00:02]` strips to `hello` |
| Filenames.DeleteRuns | main.go:107 | definition of `ReplaceAllString(s, "")` for `[^a-zA-Z0-9 ]+`: each maximal run outside the class deleted, scanning left to right; stated by `Filenames.DeleteRunsKeepsClass` |
| Filenames.RunLength | main.go:103 | the length of the run of characters outside `[a-zA-Z0-9 ]` at the front, followed by a class character or the end |
| Filenames.DeleteRunsKeepsClass | main.go:103-107 | deleting every maximal match of `[^a-zA-Z0-9 ]+` is deleting every character outside the class |
| Filenames.KeepClassChars | main.go:107 | the filtered text is no longer than the input and holds only class characters from the input |
| Filenames.KeepClassOfClass | main.go:107 | text made only of class characters is unchanged by the filter |
| Filenames.KeepClassConcat | main.go:107 | filtering a concatenation filters each part |
| Filenames.FilteredChars | main.go:106-107 | after lower-casing, trimming and filtering only small letters, digits and spaces remain |
| Filenames.Filtered | main.go:106-107 | definition: the title lower-cased, trimmed of white-space runes, then filtered; stated by `Filenames.FilteredChars` |
| Filenames.Untruncated | main.go:106-108 | definition: the filtered title with spaces replaced by hyphens; stated by `Filenames.UntruncatedReplacesSpaces` and `Filenames.UntruncatedChars` |
| Filenames.UntruncatedReplacesSpaces | main.go:108 | same length as the filtered text; a position holds `-` iff the filtered text held a space there; every other character is kept |
| Filenames.UntruncatedChars | main.go:106-108 | the untruncated stem holds only small letters, digits and `-` |
| Filenames.CleanFilename | main.go:105-112 | the stem is at most 50 characters long, a prefix of the untruncated stem, equal to it when it is at most 50 long and exactly 50 long otherwise, and made only of `a`-`z`, `0`-`9`, `-` |
| Filenames.CleanFilenameByStages | main.go:105-112 | the stem is the filtered, lower-cased, trimmed title with spaces replaced by hyphens, when that is at most 50 long |
| Filenames.LowerOfLower | main.go:106 | a title without capitals is unchanged by lower-casing |
| Filenames.TrimmedUnchanged | main.go:106 | a title that neither starts nor ends with white space is unchanged by trimming |
| Filenames.TwoWords | main.go:105-112 | two one-letter words become `x-y` |
| Filenames.TrailingHyphen | main.go:106-108 | `x !` becomes `x-`: trimming comes before filtering |
| Filenames.KeepClassDropsBang | main.go:107 | the filter deletes `!` and keeps letters and spaces |
| Filenames.KeepClassDropsHyphen | main.go:107 | the filter deletes `-` between letters |
| Filenames.HyphenDropped | main.go:105-112 | cleaning `x-y` gives `xy` |
| Filenames.CleanFilenameNotIdempotent | main.go:105-112 | cleaning `x-y` again gives `xy` |
| Discovery.IsWav | main.go:79 | definition of the test: the extension, lower-cased, is `.wav`; stated by `Discovery.IsWavIffSuffix` |
| Discovery.Ext | main.go:79 | a suffix of the path; when nonempty, it starts with `.` and holds no other `.` and no `/` |
| Discovery.ExtEmpty | main.go:79 | the extension is empty iff every `.` of the path has a `/` after it (both directions) |
| Discovery.SlashEndCloses | main.go:79 | proof step: in a path ending in `/` every `.` has a `/` after it |
| Discovery.DotEndOpens | main.go:79 | proof step: a path ending in `.` has a `.` with no `/` after it |
| Discovery.OtherEndKeeps | main.go:79 | proof step: a last character other than `.` and `/` does not change whether every `.` has a `/` after it |
| Discovery.ExtFrom | main.go:79 | a path whose `.` at `i` is followed by no `.` and no `/` has the suffix from `i` as extension |
| Discovery.WavSuffixOfAccepted | main.go:79 | an accepted path has at least four characters, and its last four lower-case to `.wav` |
| Discovery.WavLetters | main.go:79 | a path whose last four characters lower-case to `.wav` has a `.` in the fourth-last place and no `.` or `/` after it |
| Discovery.LowerRuneTo | main.go:79 | proof step: a rune lower-cases to a letter other than `i`/`k` only from that letter in either case, and to `.` only from `.` |
| Discovery.IsWavIffSuffix | main.go:79 | the test accepts a path iff its last four characters lower-case to `.wav` (both directions) |
| Discovery.UpperCaseAccepted | main.go:79 | `A.WAV` is accepted |
| Discovery.DoubleExtensionRejected | main.go:79 | `x.wav.mp3` is rejected |
| Discovery.Collects | main.go:79 | definition of the callback's choice: a visited non-directory path that passes the test; stated by `Discovery.WavPathsMembers` |
| Discovery.WavPaths | main.go:74-83 | definition: the collected paths over the whole walk, in walk order; stated by `Discovery.WavPathsMembers` and `Discovery.SelectedConcat` |
| Discovery.Selected | main.go:79-80 | no more paths are collected than there are events |
| Discovery.FirstFailure | main.go:76-77 | the position of the first error event, every event before it a visit; the length when there is none |
| Discovery.SelectedConcat | main.go:80 | collecting over a concatenation appends the collections: walk order is kept |
| Discovery.SelectedMembers | main.go:79-80 | a path is collected iff some accepted event has that path |
| Discovery.WavPathsMembers | main.go:79-80 | a path is collected iff some event visits it as a non-directory whose extension lower-cases to `.wav` |
| Discovery.FirstFailureAt | main.go:76-77 | proof step: the first error is at `i` when none comes before it |
| Discovery.FindWavFiles | main.go:73-85 | an error is returned iff the walk meets one, and it is the first; the paths returned are those collected before it (all of them when there is none) |
| Discovery.DirectoryThenWav | main.go:73-85 | a walk visiting a directory and then a WAV file meets no error and collects that file alone |
| Pipeline.Transcribe | main.go:121-125 | success iff the recogniser succeeds, with its output stripped of timestamps; its error otherwise, wrapped with `whisper failed ` |
| Pipeline.NoteName | main.go:98 | the name ends with `.md`, is at most 53 characters, and its stem holds only `a`-`z`, `0`-`9`, `-` |
| Pipeline.ProcessFile | main.go:87-101 | a write is attempted iff transcription and summary succeed; a transcription error is returned unchanged with an empty name; without a write the name is empty and there is an error; with one, the name is the written file's and the error is the write's |
| Pipeline.FileWritten | main.go:87-100 | when both oracles and the write succeed, the step attempts the note write and returns no error |
| Pipeline.SummaryFailureWritesNothing | main.go:93-96 | a failing summary writes nothing and returns its error wrapped with `failed to create summary: ` |
| Pipeline.WrittenNote | main.go:98-100 | the write goes to the destination directory, named after the cleaned summary of the stripped transcript plus `.md`, with the stripped transcript as content |
| Pipeline.SuccessMeansWritten | main.go:98-100 | a file processed without error was written |
| Pipeline.FileError | main.go:63 | the loop's error wraps the file's error |
| Pipeline.Batch | main.go:59-66 | the loop makes at most one write per file |
| Pipeline.BatchLast | main.go:59-65 | proof step: after a loop that has not failed, one more file appends its attempted write and decides the error |
| Pipeline.BatchOfOne | main.go:59-66 | a loop over one file that succeeds makes that file's write and returns no error |
| Pipeline.BatchAllSucceed | main.go:59-66 | when every file succeeds, the writes are the files' writes one for one, in order, and there is no error |
| Pipeline.BatchStopped | main.go:62-64 | once the loop has failed, later files change nothing |
| Pipeline.BatchFirstFailure | main.go:59-64 | at the first failing file the loop stops with that file's wrapped error; the earlier files' writes are made in order and later files are not touched |
| Pipeline.FileStep | main.go:61 | definition of the loop's call `processFile(ctx, cfg.DestDir, wav)` as the step of `Pipeline.Batch`; stated by `Pipeline.FileWritten` and `Pipeline.SuccessMeansWritten` |
| Pipeline.ProcessAll | main.go:59-67 | the loop's writes and error are `Batch`'s |
| Pipeline.Run | main.go:51-67 | the writes and error are `Pipeline.Command`'s; the found paths are those collected before the first walk error, so all WAV paths of the walk whenever the walk meets no error (whatever the processing does) |
| Pipeline.Command | main.go:51-67 | a walk error writes nothing and returns an error; there is at most one write per WAV file found; a command that succeeds met no walk error |
| Pipeline.WalkFailureWritesNothing | main.go:51-54 | a walk error writes nothing and returns that error wrapped with `unable to find WAV source files: ` |
| Pipeline.NoWavFilesNoWrites | main.go:51-67 | a walk without WAV files writes nothing and succeeds |
| Pipeline.OneRecording | main.go:51-67 | a directory holding one recording gets one note, named after the summary, holding the stripped transcript |

## Left out

- Command-line set-up (main.go:18-45): cobra, flag parsing and printing the final error. This is plumbing with no decision logic.
- `os.MkdirAll` of the destination (main.go:47-49). It is file-system I/O and runs before anything modelled.
- The progress messages (main.go:55, 60, 65). They are output only.
- The recogniser's subprocess (main.go:116-123): the bash command line, stderr forwarding and exit status. Its standard output or failure is an oracle of `Pipeline.Env`.
- `ollamaTitleSummary` (main.go:142-179): the prompt, JSON and HTTP. It is an oracle of `Pipeline.Env`. The oracle receives the transcript bytes; Go's conversion to a string is not modelled.
- Context cancellation. It is a runtime concern; a cancelled call is one more error answer of an oracle.
- `filepath.Walk` traversal (main.go:75). The walk is the sequence of callback calls it makes, in its order. Lexical ordering and directory reading are not modelled.
- `os.WriteFile` (main.go:100). A write is a call recorded in the trace, whose outcome is an oracle answer. Partial writes and file permissions are not modelled.
- `filepath.Join` (main.go:99). A write records the destination directory and the file name separately. Path cleaning is not modelled.
- Text.Lower: only ASCII capitals and the two non-ASCII runes whose lower case is ASCII (U+0130, U+212A) are mapped. Every other rune is left as it is. The regular expression deletes all non-ASCII runes next, so the stem is exact. An `IsWav` comparison with `.wav` is exact too.
- Paths and titles are strings of Unicode characters. Go strings holding invalid UTF-8 are not modelled.
- Discovery.Ext: `/` is the only separator, as on Unix.
- transcribe.py, an alternative script outside the Go program.
