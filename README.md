# Streaming segment transcriber, modelled in Dafny

`transcribe_segments.py` loads a 16 kHz audio buffer and cuts it into fixed
30-second windows. It hands each window to a speech recogniser and appends one
line per window to a text file next to the input, as the windows are
processed. Two filters decide which windows produce no line:

- a window shorter than half a second (8000 samples) is skipped and never
  reaches the recogniser;
- a window whose recognised text is empty once stripped of whitespace
  writes nothing.

The model has five modules:

- `Segmenter` holds the window arithmetic: the window size, the number of
  windows (an integer ceiling), each window's bounds, and the tail filter.
- `PyText` is Python's `str.strip()` over the characters `str.isspace()`
  accepts.
- `OutputPath` is POSIX `os.path.splitext` and the derived path
  `root + ".txt"`.
- `Transcription` is the loop itself. The method
  `Transcription.TranscribeSegments` removes a stale output file and opens it
  for appending. It then walks the windows with a `for` loop that skips,
  calls the recogniser, strips, and appends to a `TranscriptFile` object in
  place. It is proved equal to a specification: `Transcript` replays the
  per-window `Outcome`s (Skip, Fail, Blank, Write). Lemmas about `Transcript`
  state what the script promises:
  - lines come in strictly increasing window order;
  - exactly the non-blank windows reached before an exception have lines;
  - the recogniser is called on the non-skipped windows in order, up to and
    including the first call that raises, and on all of them when none raises;
  - the line and call counts are bounded;
  - a re-run gives the same file.
- `Wrappers` holds `Option`, for the result's possibly missing `"text"`
  entry.

The recogniser (`model.transcribe`) is a function parameter of type
`seq<Sample> -> Reply`. A reply either returns an optional text or raises.
The script does not catch exceptions, so a `Raised` reply ends the run. The
lines already appended stay in the file.

## Model

| member | source | states |
|---|---|---|
| Segmenter.SegmentCount | transcribe_segments.py:24-25 | the number of windows `n` covers the buffer (`total <= n * 480000`) and one window fewer would not |
| Segmenter.SegmentCountIsCeiling | transcribe_segments.py:24-25 | `total <= m * 480000` holds exactly when `m` is at least the count: the count is the integer ceiling of `total / 480000` |
| Segmenter.NoSegmentsForEmptyBuffer | transcribe_segments.py:25 | an empty buffer has zero windows |
| Segmenter.SegmentAt | transcribe_segments.py:36-37 | window `i` has `start < end <= total` and at most 480000 samples |
| Segmenter.SegmentsContiguous | transcribe_segments.py:35-37 | the first window starts at 0, each window starts where the previous ends, and the last ends at `total` |
| Segmenter.SegmentsDisjoint | transcribe_segments.py:36-37 | an earlier window ends no later than a later window starts |
| Segmenter.SampleInExactlyOneSegment | transcribe_segments.py:35-38 | every sample position lies in window `p / 480000` and in no other window |
| Segmenter.SegmentLengths | transcribe_segments.py:36-38 | every window but the last has exactly 480000 samples; the last has `total - i * 480000`, between 1 and 480000, so no window is empty |
| Segmenter.PrefixLengthCovers | transcribe_segments.py:35-37 | the first `k` windows hold `min(k * 480000, total)` samples |
| Segmenter.SegmentLengthsSumToTotal | transcribe_segments.py:35-37 | the window lengths add up to the buffer length |
| Segmenter.OnlyTailSkipped | transcribe_segments.py:40-42 | only the last window can be shorter than 8000 samples, and it is exactly when `0 < total % 480000 < 8000` |
| Segmenter.Skipped | transcribe_segments.py:41 | `len(segment_audio) < sr * 0.5`: window `i` has fewer than 8000 samples; characterised by OnlyTailSkipped |
| Segmenter.SubmittedUpTo | transcribe_segments.py:35-42 | the indices of the windows below `k` that pass the tail filter, in loop order; characterised by SubmittedUpToMembers |
| Segmenter.SubmittedUpToMembers | transcribe_segments.py:35-42 | a position is in the submitted list exactly when it is below `k` and not skipped, and the list is strictly increasing |
| Segmenter.SubmittedCount | transcribe_segments.py:35-42 | every window is submitted except a skipped tail: the submitted count is `k`, or `n - 1` when the last window is skipped |
| Segmenter.NinetyFiveSecondBuffer | transcribe_segments.py:24-25 | 95 s gives 4 windows; the last is [90 s, 95 s), 80000 samples, and nothing is skipped |
| Segmenter.NinetyPointThreeSecondBuffer | transcribe_segments.py:36-42 | 90.3 s gives 4 windows; the last is 4800 samples and is skipped, and the others are not |
| PyText.IsSpace | transcribe_segments.py:55 | the characters `str.isspace()` accepts, which `strip()` removes: U+0009-U+000D, U+001C-U+0020, U+0085, U+00A0, U+1680, U+2000-U+200A, U+2028, U+2029, U+202F, U+205F, U+3000 |
| PyText.Strip | transcribe_segments.py:55 | `.strip()`: `TrimEnd(TrimStart(s))`, characterised by StripIsTrimmedSlice, StripEmptyIffBlank and StripIdempotent |
| PyText.TrimStart | transcribe_segments.py:55 | the left-stripped text is a suffix of the input; everything dropped is whitespace; the result does not start with whitespace |
| PyText.TrimEnd | transcribe_segments.py:55 | the right-stripped text is a prefix of the input; everything dropped is whitespace; the result does not end with whitespace |
| PyText.StripIsTrimmedSlice | transcribe_segments.py:55 | `strip()` returns a slice `s[i..j]` with only whitespace outside it, and neither end of the result is whitespace |
| PyText.StripEmptyIffBlank | transcribe_segments.py:55 | the stripped text is empty exactly when the text is all whitespace |
| PyText.StripIdempotent | transcribe_segments.py:55 | stripping twice is stripping once |
| OutputPath.LastIndexOf | transcribe_segments.py:29 | the index of the last occurrence of a character, or -1 when there is none |
| OutputPath.SplitExt | transcribe_segments.py:29 | `root + ext` is the path; `ext` is empty or a '.' followed by no '.' or '/'; a non-empty `ext` leaves a root whose last component has a non-dot character; an empty `ext` means the last component has no '.' after a non-dot character, so an existing extension is always split off |
| OutputPath.OutputPathOf | transcribe_segments.py:29 | the output path is the root of the input path followed by ".txt", and that root is a prefix of the input |
| OutputPath.OutputPathSplitsBack | transcribe_segments.py:29 | splitting the output path again gives the input's root and the extension ".txt" when the root names a file |
| OutputPath.OutputPathOfDirectory | transcribe_segments.py:29 | "dir/" gives "dir/.txt", whose extension is empty |
| OutputPath.OutputPathIsInputIff | transcribe_segments.py:29 | the output path equals the input exactly when the input's extension is ".txt" |
| OutputPath.ConfiguredOutputPath | transcribe_segments.py:7 | the configured "files.wav" is transcribed to "files.txt" |
| OutputPath.ReplacesExtension | transcribe_segments.py:29 | "a/b.wav" gives "a/b.txt": the extension is replaced, not appended to |
| Transcription.Window | transcribe_segments.py:38 | the slice for window `i` has the window's length |
| Transcription.ReplyText | transcribe_segments.py:55 | the text used is empty exactly when the reply's text is missing, `None`, or all whitespace |
| Transcription.LineFor | transcribe_segments.py:63 | the record written for window `i`: its index, its bounds `start` and `end`, and its stripped text |
| Transcription.OutcomeAt | transcribe_segments.py:41-61 | what the loop body does with window `i`: skip it when it is too short, otherwise call the recogniser, which raises, returns blank text, or returns text that is written; characterised by OutcomeAtClassifies |
| Transcription.OutcomeAtClassifies | transcribe_segments.py:41-61 | each window is exactly one of: skipped, raised, blank, or emits its own line |
| Transcription.OutcomesUpToAt | transcribe_segments.py:35 | position `i` of the outcome list is the outcome of window `i` |
| Transcription.OutcomesAt | transcribe_segments.py:35-61 | position `i` of the full outcome list is window `i`'s outcome, classified as above |
| Transcription.Step | transcribe_segments.py:41-63 | one iteration: nothing happens after a raise or for a skipped window; otherwise the call is recorded, the run ends on a raise, and a line is appended for a Write outcome |
| Transcription.Replay | transcribe_segments.py:34-63 | the first `k` iterations of the loop, as `Step` applied in window order from an empty file; characterised by the Replay lemmas below |
| Transcription.Transcript | transcribe_segments.py:34-63 | the whole loop over the buffer: the reference that TranscribeSegments is proved equal to, characterised by the Transcript lemmas below |
| Transcription.ReplayGrows | transcribe_segments.py:34-63 | later iterations only append lines and calls and never rewrite earlier ones |
| Transcription.ReplayStopsAfterFailure | transcribe_segments.py:49-54 | once the recogniser has raised, nothing more happens |
| Transcription.ReplayCompletedIff | transcribe_segments.py:34-63 | the run completes exactly when no outcome is an exception; otherwise its last call is the one that raised |
| Transcription.ReplayLinesSound | transcribe_segments.py:60-63 | each line comes from a Write outcome reached before any exception; lines are in strictly increasing window order |
| Transcription.ReplayLinesComplete | transcribe_segments.py:60-63 | each Write outcome reached before any exception has its line in the file |
| Transcription.NotSkippedGrows | transcribe_segments.py:35-42 | the list of non-skipped positions only grows as windows are added |
| Transcription.ReplayCalls | transcribe_segments.py:41-49 | the calls are a prefix of the non-skipped positions, and all of them when the run completes |
| Transcription.ReplayCallsReached | transcribe_segments.py:41-54 | every call goes to a position below `k` with no exception before it, so no call follows a raise |
| Transcription.ReplayLineCount | transcribe_segments.py:49-63 | there are no more lines than calls, and strictly fewer once a call wrote nothing |
| Transcription.NotSkippedMatches | transcribe_segments.py:40-42 | an outcome list whose skips are the segmenter's skips has the segmenter's submitted windows as its non-skipped positions |
| Transcription.NotSkippedIsSubmitted | transcribe_segments.py:40-42 | the outcome list's non-skipped positions are the segmenter's submitted windows |
| Transcription.OutcomesIndexed | transcribe_segments.py:63 | every line in the outcome list belongs to its own window |
| Transcription.ReachedIff | transcribe_segments.py:34-54 | the loop gets to window `i` exactly when no earlier outcome is an exception |
| Transcription.TranscriptLineAt | transcribe_segments.py:55-63 | line `j` of the transcript is the line of a reached window that emits: that window's index, bounds and stripped text |
| Transcription.TranscriptLinesSound | transcribe_segments.py:55-63 | each line belongs to a reached, non-skipped window with non-blank text; lines are in strictly increasing window order, so each window writes at most one line |
| Transcription.TranscriptLinesComplete | transcribe_segments.py:55-63 | every reached, non-skipped window with non-blank text has its line in the transcript |
| Transcription.TranscriptCalls | transcribe_segments.py:35-54 | calls go to non-skipped windows in increasing order; all of them when the run completes; the run completes exactly when no window raised; otherwise the last call raised |
| Transcription.TranscriptCallsReached | transcribe_segments.py:35-54 | every call is made on a window the loop reached, one with no raising window before it, so the calls stop at the first exception |
| Transcription.TranscriptLineCount | transcribe_segments.py:41-63 | lines ≤ calls ≤ non-skipped windows; strictly fewer lines than calls when some call returned blank text |
| Transcription.EmptyAudioEmptyTranscript | transcribe_segments.py:25-35 | an empty buffer makes no calls and writes no lines |
| Transcription.LoopBounds | transcribe_segments.py:36-42 | the loop's `start`, `end` and slice are window `i`'s, and the length test is the tail filter |
| Transcription.SkipStep | transcribe_segments.py:41-42 | a window that is too short changes nothing |
| Transcription.RaiseStep | transcribe_segments.py:49-54 | a call that raises is recorded and ends the run |
| Transcription.ReplyStep | transcribe_segments.py:49-63 | a call that returns is recorded, and a line with the window's bounds and stripped text is appended exactly when that text is not empty |
| Transcription.TranscriptFile.constructor | transcribe_segments.py:29-30 | the file at the output path as found before the run, existing or not |
| Transcription.TranscriptFile.Remove | transcribe_segments.py:30-31 | `os.remove`: the file no longer exists and holds nothing |
| Transcription.TranscriptFile.OpenForAppend | transcribe_segments.py:34 | opening in append mode creates the file if missing and keeps its lines |
| Transcription.TranscriptFile.Write | transcribe_segments.py:63 | `f.write` appends exactly one line |
| Transcription.TranscribeSegments | transcribe_segments.py:29-63 | after the run the file exists and holds exactly the transcript's lines; the recogniser calls and whether the loop completed are the transcript's |
| Transcription.RerunReproducesTranscript | transcribe_segments.py:29-34 | running twice with the same recogniser leaves the same lines as the first run |

## Left out

- Model loading (`whisper.load_model`, line 12) and audio decoding (`load_audio`, line 17) are foreign library calls. The buffer is a given `seq<Sample>`, and a sample (`real`) is never inspected.
- The internals of `model.transcribe` (lines 49-54), including its `fp16`, `language` and `verbose` arguments, are not modelled. The recogniser is a function parameter that returns an optional text or raises.
- The progress messages (lines 11-26, 47, 58, 65-66) are output only.
- The floating-point time labels `start / sr` and `end / sr` are not modelled. Neither is the `[{start_time:6.1f}–{end_time:6.1f}s] {text}` formatting (lines 44-45, 63). A `Line` keeps the window index, the sample bounds and the stripped text instead. A `Line` stands for one `f.write` call. `strip()` trims only the ends, so recognised text can still hold newlines, and one write can then put several lines in the file. "One line per window" and "at most one line per window" therefore count writes, not text lines in the file.
- Segmenter.SegmentCount: computes `math.ceil` of the float quotient `total_samples / segment_samples` as an exact integer ceiling. Beyond 2^53 samples, float rounding could differ from that.
- Real file-system effects are reduced to a `TranscriptFile` object: whether it exists, plus its lines. That covers `os.path.exists`, `os.remove`, `open(..., "a")` and UTF-8 encoding. Closing the file when the `with` block exits is abstracted away. That exit happens normally or because the recogniser raised, and either way it flushes what was written, so the lines already appended stay in the file. Per-line durability is not claimed, since the script never flushes between writes.
- Transcription.RerunReproducesTranscript: holds only for a deterministic recogniser. The recogniser is typed as a function, so the model assumes `model.transcribe` returns the same reply for the same window. By default `model.transcribe` can fall back to sampling at higher temperatures, and its output can then differ between runs.
- The script has no exception handling. A recogniser exception ends the run and the script's remaining output. Errors from loading, opening or writing the file are not modelled.
- The window length (30 s), the sample rate (16000) and the tail threshold (`sr * 0.5`) are constants in the script, so the model fixes them. They are not configurable.
- Transcription.TranscribeSegments: takes the input path as a parameter instead of the constant "files.wav" of line 7. `OutputPath.ConfiguredOutputPath` covers that constant.
