/**
  The streaming loop of transcribe_segments.py (lines 29-63): the transcript
  file is emptied, then the windows are visited in index order; a window
  shorter than half a second is skipped, every other one is handed to the
  recogniser, and a line is appended only when the recognised text is not
  blank once stripped. The recogniser is a parameter; an exception it raises
  is not caught by the script and ends the run.
*/
module Transcription {
  import opened Wrappers
  import opened Segmenter
  import opened PyText
  import opened OutputPath

  /** One audio sample; the loop never looks at its value. */
  type Sample = real

  /**
    What one call of `model.transcribe` does: it returns a result whose
    "text" entry may be missing or `None`, or it raises.
  */
  datatype Reply = Returned(text: Option<string>) | Raised

  /** The speech recogniser, as a function of the window's samples. */
  type Recogniser = seq<Sample> -> Reply

  /**
    One transcript line, `[{start_time:6.1f}–{end_time:6.1f}s] {text}`: the
    window (its index and sample bounds) and its stripped text.
  */
  datatype Line = Line(index: nat, start: nat, end: nat, text: string)

  /** `audio[start:end]` for window `i`. */
  function Window(audio: seq<Sample>, i: nat): (w: seq<Sample>)
    requires i < SegmentCount(|audio|)
    ensures |w| == SegmentAt(|audio|, i).Length()
  {
    audio[SegmentAt(|audio|, i).start..SegmentAt(|audio|, i).end]
  }

  /** `(result.get("text") or "").strip()`: empty exactly when the text is missing, `None` or blank. */
  function ReplyText(text: Option<string>): (t: string)
    ensures t == [] <==> text.None? || AllSpace(text.value)
  {
    StripEmptyIffBlank(text.GetOr(""));
    Strip(text.GetOr(""))
  }

  /** Window `i` is handed to the recogniser, which raises. */
  predicate Fails(audio: seq<Sample>, recognise: Recogniser, i: nat)
    requires i < SegmentCount(|audio|)
  {
    !Skipped(|audio|, i) && recognise(Window(audio, i)).Raised?
  }

  /** Window `i` is handed to the recogniser, which returns text that is not blank. */
  predicate Emits(audio: seq<Sample>, recognise: Recogniser, i: nat)
    requires i < SegmentCount(|audio|)
  {
    && !Skipped(|audio|, i)
    && recognise(Window(audio, i)).Returned?
    && ReplyText(recognise(Window(audio, i)).text) != []
  }

  /** Window `i` is handed to the recogniser, which returns no text or blank text. */
  predicate IsBlank(audio: seq<Sample>, recognise: Recogniser, i: nat)
    requires i < SegmentCount(|audio|)
  {
    && !Skipped(|audio|, i)
    && recognise(Window(audio, i)).Returned?
    && ReplyText(recognise(Window(audio, i)).text) == []
  }

  /** The line window `i` contributes when it emits. */
  function LineFor(audio: seq<Sample>, recognise: Recogniser, i: nat): Line
    requires i < SegmentCount(|audio|)
    requires Emits(audio, recognise, i)
  {
    var s := SegmentAt(|audio|, i);
    Line(i, s.start, s.end, ReplyText(recognise(Window(audio, i)).text))
  }

  /** No window before `i` made the recogniser raise, so the loop gets to window `i`. */
  predicate Reached(audio: seq<Sample>, recognise: Recogniser, i: nat)
    requires i <= SegmentCount(|audio|)
  {
    forall j :: 0 <= j < i ==> !Fails(audio, recognise, j)
  }

  /** What happened to one window. */
  datatype Outcome = Skip | Fail | Blank | Write(line: Line)

  /** The outcome of window `i`: the two filters of the loop body and the recogniser's reply. */
  function OutcomeAt(audio: seq<Sample>, recognise: Recogniser, i: nat): Outcome
    requires i < SegmentCount(|audio|)
  {
    if Skipped(|audio|, i) then Skip
    else match recognise(Window(audio, i))
      case Raised => Fail
      case Returned(text) =>
        if ReplyText(text) == [] then Blank
        else Write(LineFor(audio, recognise, i))
  }

  /** Each window is classified by exactly one of the two filters, an exception, or a line. */
  lemma OutcomeAtClassifies(audio: seq<Sample>, recognise: Recogniser, i: nat)
    requires i < SegmentCount(|audio|)
    ensures var o := OutcomeAt(audio, recognise, i);
      && (o.Skip? <==> Skipped(|audio|, i))
      && (o.Fail? <==> Fails(audio, recognise, i))
      && (o.Blank? <==> IsBlank(audio, recognise, i))
      && (o.Write? <==> Emits(audio, recognise, i))
      && (o.Write? ==> o.line.index == i && o.line == LineFor(audio, recognise, i))
  {
  }

  /** The outcomes of the first `k` windows, in index order. */
  function OutcomesUpTo(audio: seq<Sample>, recognise: Recogniser, k: nat): (os: seq<Outcome>)
    requires k <= SegmentCount(|audio|)
    ensures |os| == k
  {
    if k == 0 then [] else OutcomesUpTo(audio, recognise, k - 1) + [OutcomeAt(audio, recognise, k - 1)]
  }

  /** The outcomes of all windows, in index order. */
  function Outcomes(audio: seq<Sample>, recognise: Recogniser): (os: seq<Outcome>)
    ensures |os| == SegmentCount(|audio|)
  {
    OutcomesUpTo(audio, recognise, SegmentCount(|audio|))
  }

  /** Position `i` of a prefix of the outcome list is the outcome of window `i`. */
  lemma {:induction false} OutcomesUpToAt(audio: seq<Sample>, recognise: Recogniser, k: nat, i: nat)
    requires i < k <= SegmentCount(|audio|)
    ensures OutcomesUpTo(audio, recognise, k)[i] == OutcomeAt(audio, recognise, i)
  {
    if i < k - 1 {
      OutcomesUpToAt(audio, recognise, k - 1, i);
    }
  }

  /** Position `i` of the outcome list is the outcome of window `i`, classified as `OutcomeAtClassifies` says. */
  lemma OutcomesAt(audio: seq<Sample>, recognise: Recogniser, i: nat)
    requires i < SegmentCount(|audio|)
    ensures var o := Outcomes(audio, recognise)[i];
      && o == OutcomeAt(audio, recognise, i)
      && (o.Skip? <==> Skipped(|audio|, i))
      && (o.Fail? <==> Fails(audio, recognise, i))
      && (o.Blank? <==> IsBlank(audio, recognise, i))
      && (o.Write? <==> Emits(audio, recognise, i))
      && (o.Write? ==> o.line.index == i && o.line == LineFor(audio, recognise, i))
  {
    OutcomesUpToAt(audio, recognise, SegmentCount(|audio|), i);
    OutcomeAtClassifies(audio, recognise, i);
  }

  /**
    The observable effect of a run: the lines in the file, the indices of
    the windows handed to the recogniser in call order, and whether the loop
    ran to its end rather than being ended by an exception.
  */
  datatype Run = Run(lines: seq<Line>, calls: seq<nat>, completed: bool)

  /** One iteration of the loop body for window `i`, once its outcome is known. */
  function Step(r: Run, i: nat, o: Outcome): Run {
    if !r.completed then r
    else match o
      case Skip => r
      case Blank => Run(r.lines, r.calls + [i], true)
      case Fail => Run(r.lines, r.calls + [i], false)
      case Write(line) => Run(r.lines + [line], r.calls + [i], true)
  }

  /** The effect of the first `k` iterations of the loop, given the windows' outcomes. */
  function Replay(os: seq<Outcome>, k: nat): Run
    requires k <= |os|
  {
    if k == 0 then Run([], [], true) else Step(Replay(os, k - 1), k - 1, os[k - 1])
  }

  /** The effect of the whole run of the script over `audio`. */
  function Transcript(audio: seq<Sample>, recognise: Recogniser): Run {
    Replay(Outcomes(audio, recognise), SegmentCount(|audio|))
  }

  /** Every `Write` outcome carries a line for its own window. */
  predicate Indexed(os: seq<Outcome>) {
    forall i :: 0 <= i < |os| && os[i].Write? ==> os[i].line.index == i
  }

  /** No outcome before position `i` is an exception. */
  predicate NoFailBefore(os: seq<Outcome>, i: nat)
    requires i <= |os|
  {
    forall j :: 0 <= j < i ==> !os[j].Fail?
  }

  /** The positions before `k` whose window is not skipped. */
  function NotSkipped(os: seq<Outcome>, k: nat): seq<nat>
    requires k <= |os|
  {
    if k == 0 then [] else NotSkipped(os, k - 1) + (if os[k - 1].Skip? then [] else [k - 1])
  }

  /** The replay only grows what it has produced: earlier lines and calls are never rewritten. */
  lemma {:induction false} ReplayGrows(os: seq<Outcome>, k: nat, m: nat)
    requires k <= m <= |os|
    ensures Replay(os, k).lines <= Replay(os, m).lines
    ensures Replay(os, k).calls <= Replay(os, m).calls
  {
    if k < m {
      ReplayGrows(os, k, m - 1);
    }
  }

  /** Once the recogniser has raised, no later iteration changes anything. */
  lemma {:induction false} ReplayStopsAfterFailure(os: seq<Outcome>, k: nat, m: nat)
    requires k <= m <= |os|
    requires !Replay(os, k).completed
    ensures Replay(os, m) == Replay(os, k)
  {
    if k < m {
      ReplayStopsAfterFailure(os, k, m - 1);
    }
  }

  /** The replay completes exactly when no outcome is an exception; otherwise its last call is the one that raised. */
  lemma {:induction false} ReplayCompletedIff(os: seq<Outcome>, k: nat)
    requires k <= |os|
    ensures Replay(os, k).completed <==> NoFailBefore(os, k)
    ensures !Replay(os, k).completed ==>
      var calls := Replay(os, k).calls;
      calls != [] && calls[|calls| - 1] < k && os[calls[|calls| - 1]].Fail?
  {
    if k > 0 {
      ReplayCompletedIff(os, k - 1);
      if !NoFailBefore(os, k - 1) {
        var j :| 0 <= j < k - 1 && os[j].Fail?;
        assert !NoFailBefore(os, k);
      }
    }
  }

  /** Each line is the line of a `Write` outcome reached before any exception, in strictly increasing window order. */
  lemma {:induction false} ReplayLinesSound(os: seq<Outcome>, k: nat)
    requires k <= |os| && Indexed(os)
    ensures var lines := Replay(os, k).lines;
      forall j :: 0 <= j < |lines| ==>
        lines[j].index < k && NoFailBefore(os, lines[j].index) && os[lines[j].index] == Write(lines[j])
    ensures var lines := Replay(os, k).lines;
      forall j, j' :: 0 <= j < j' < |lines| ==> lines[j].index < lines[j'].index
  {
    if k > 0 {
      ReplayLinesSound(os, k - 1);
      ReplayCompletedIff(os, k - 1);
    }
  }

  /** Each `Write` outcome reached before any exception has its line. */
  lemma ReplayLinesComplete(os: seq<Outcome>, k: nat, i: nat)
    requires i < k <= |os|
    requires NoFailBefore(os, i) && os[i].Write?
    ensures os[i].line in Replay(os, k).lines
  {
    ReplayCompletedIff(os, i);
    ReplayGrows(os, i + 1, k);
    assert Replay(os, i + 1).lines[|Replay(os, i).lines|] == os[i].line;
  }

  /** Later windows only add to the list of submitted positions. */
  lemma {:induction false} NotSkippedGrows(os: seq<Outcome>, k: nat, m: nat)
    requires k <= m <= |os|
    ensures NotSkipped(os, k) <= NotSkipped(os, m)
  {
    if k < m {
      NotSkippedGrows(os, k, m - 1);
    }
  }

  /** The calls are the non-skipped positions in order: all of them when the replay completes, a prefix of them otherwise. */
  lemma {:induction false} ReplayCalls(os: seq<Outcome>, k: nat)
    requires k <= |os|
    ensures Replay(os, k).calls <= NotSkipped(os, k)
    ensures Replay(os, k).completed ==> Replay(os, k).calls == NotSkipped(os, k)
  {
    if k > 0 {
      ReplayCalls(os, k - 1);
      var r := Replay(os, k - 1);
      if !r.completed {
        NotSkippedGrows(os, k - 1, k);
      }
    }
  }

  /** Every call goes to a position reached before any exception, so no call follows one that raised. */
  lemma {:induction false} ReplayCallsReached(os: seq<Outcome>, k: nat)
    requires k <= |os|
    ensures var calls := Replay(os, k).calls;
      forall j :: 0 <= j < |calls| ==> calls[j] < k && NoFailBefore(os, calls[j])
  {
    if k > 0 {
      ReplayCallsReached(os, k - 1);
      ReplayCompletedIff(os, k - 1);
    }
  }

  /** No more lines than calls, and strictly fewer as soon as some call wrote no line. */
  lemma {:induction false} ReplayLineCount(os: seq<Outcome>, k: nat)
    requires k <= |os|
    ensures |Replay(os, k).lines| <= |Replay(os, k).calls|
    ensures (exists c :: c in Replay(os, k).calls && c < |os| && !os[c].Write?) ==>
      |Replay(os, k).lines| < |Replay(os, k).calls|
  {
    if k > 0 {
      ReplayLineCount(os, k - 1);
      var r := Replay(os, k - 1);
      if r.completed && os[k - 1].Write? {
        var r' := Replay(os, k);
        assert r'.calls == r.calls + [k - 1] && |r'.lines| == |r.lines| + 1;
        if c :| c in r'.calls && c < |os| && !os[c].Write? {
          assert c in r.calls;
        }
      }
    }
  }

  /** An outcome list whose skips are the segmenter's has the segmenter's submitted windows as its non-skipped positions. */
  lemma {:induction false} NotSkippedMatches(os: seq<Outcome>, total: nat, k: nat)
    requires k <= |os| == SegmentCount(total)
    requires forall i :: 0 <= i < |os| ==> (os[i].Skip? <==> Skipped(total, i))
    ensures NotSkipped(os, k) == SubmittedUpTo(total, k)
  {
    if k > 0 {
      NotSkippedMatches(os, total, k - 1);
      var tail: seq<nat> := if Skipped(total, k - 1) then [] else [k - 1];
      assert os[k - 1].Skip? <==> Skipped(total, k - 1);
      assert NotSkipped(os, k) == NotSkipped(os, k - 1) + tail;
      assert SubmittedUpTo(total, k) == SubmittedUpTo(total, k - 1) + tail;
    }
  }

  /** The submitted windows of the outcome list are those of the segmenter. */
  lemma NotSkippedIsSubmitted(audio: seq<Sample>, recognise: Recogniser, k: nat)
    requires k <= SegmentCount(|audio|)
    ensures NotSkipped(Outcomes(audio, recognise), k) == SubmittedUpTo(|audio|, k)
  {
    var os := Outcomes(audio, recognise);
    forall i | 0 <= i < |os| ensures os[i].Skip? <==> Skipped(|audio|, i) {
      OutcomesAt(audio, recognise, i);
    }
    NotSkippedMatches(os, |audio|, k);
  }

  /** Every `Write` outcome of the list carries the line of its own window. */
  lemma OutcomesIndexed(audio: seq<Sample>, recognise: Recogniser)
    ensures Indexed(Outcomes(audio, recognise))
  {
    var os := Outcomes(audio, recognise);
    forall i | 0 <= i < |os| && os[i].Write? ensures os[i].line.index == i {
      OutcomesAt(audio, recognise, i);
    }
  }

  /** The loop reaches window `i` exactly when no earlier outcome in the list is an exception. */
  lemma ReachedIff(audio: seq<Sample>, recognise: Recogniser, i: nat)
    requires i <= SegmentCount(|audio|)
    ensures Reached(audio, recognise, i) <==> NoFailBefore(Outcomes(audio, recognise), i)
  {
    var os := Outcomes(audio, recognise);
    forall j | 0 <= j < i ensures Fails(audio, recognise, j) <==> os[j].Fail? {
      OutcomesAt(audio, recognise, j);
    }
  }

  /** Line `j` of the transcript is the line of a reached window that emits. */
  lemma TranscriptLineAt(audio: seq<Sample>, recognise: Recogniser, j: nat)
    requires j < |Transcript(audio, recognise).lines|
    ensures var line := Transcript(audio, recognise).lines[j];
      && line.index < SegmentCount(|audio|)
      && Reached(audio, recognise, line.index)
      && Emits(audio, recognise, line.index)
      && line == LineFor(audio, recognise, line.index)
  {
    var os := Outcomes(audio, recognise);
    assert Transcript(audio, recognise) == Replay(os, |os|);
    OutcomesIndexed(audio, recognise);
    ReplayLinesSound(os, |os|);
    var line := Replay(os, |os|).lines[j];
    assert line.index < |os| && os[line.index] == Write(line);
    OutcomesAt(audio, recognise, line.index);
    ReachedIff(audio, recognise, line.index);
  }

  /**
    Each line of the transcript is the line of a window that was reached, not
    skipped and recognised as non-blank text, with that window's bounds and
    stripped text; the lines come in strictly increasing window order, so each
    window contributes at most one line.
  */
  lemma TranscriptLinesSound(audio: seq<Sample>, recognise: Recogniser)
    ensures var lines := Transcript(audio, recognise).lines;
      forall j :: 0 <= j < |lines| ==>
        && lines[j].index < SegmentCount(|audio|)
        && Reached(audio, recognise, lines[j].index)
        && Emits(audio, recognise, lines[j].index)
        && lines[j] == LineFor(audio, recognise, lines[j].index)
    ensures var lines := Transcript(audio, recognise).lines;
      forall j, j' :: 0 <= j < j' < |lines| ==> lines[j].index < lines[j'].index
  {
    var os := Outcomes(audio, recognise);
    assert Transcript(audio, recognise) == Replay(os, |os|);
    OutcomesIndexed(audio, recognise);
    ReplayLinesSound(os, |os|);
    forall j: nat | j < |Transcript(audio, recognise).lines| {
      TranscriptLineAt(audio, recognise, j);
    }
  }

  /** Every window that is reached, not skipped and recognised as non-blank text has its line in the transcript. */
  lemma TranscriptLinesComplete(audio: seq<Sample>, recognise: Recogniser, i: nat)
    requires i < SegmentCount(|audio|)
    requires Reached(audio, recognise, i) && Emits(audio, recognise, i)
    ensures LineFor(audio, recognise, i) in Transcript(audio, recognise).lines
  {
    var os := Outcomes(audio, recognise);
    assert Transcript(audio, recognise) == Replay(os, |os|);
    OutcomesAt(audio, recognise, i);
    ReachedIff(audio, recognise, i);
    ReplayLinesComplete(os, |os|, i);
  }

  /**
    The recogniser is called on windows in increasing index order and never on
    a skipped one; when the run completes it has been called on every window
    that is not skipped. It completes exactly when no window made it raise,
    and otherwise the last call is the one that raised.
  */
  lemma TranscriptCalls(audio: seq<Sample>, recognise: Recogniser)
    ensures Transcript(audio, recognise).calls <= SubmittedUpTo(|audio|, SegmentCount(|audio|))
    ensures Transcript(audio, recognise).completed ==>
      Transcript(audio, recognise).calls == SubmittedUpTo(|audio|, SegmentCount(|audio|))
    ensures Transcript(audio, recognise).completed <==> Reached(audio, recognise, SegmentCount(|audio|))
    ensures !Transcript(audio, recognise).completed ==>
      var calls := Transcript(audio, recognise).calls;
      calls != [] && calls[|calls| - 1] < SegmentCount(|audio|) && Fails(audio, recognise, calls[|calls| - 1])
  {
    var os := Outcomes(audio, recognise);
    assert Transcript(audio, recognise) == Replay(os, |os|);
    ReplayCalls(os, |os|);
    ReplayCompletedIff(os, |os|);
    ReachedIff(audio, recognise, |os|);
    NotSkippedIsSubmitted(audio, recognise, |os|);
    var calls := Replay(os, |os|).calls;
    if !Replay(os, |os|).completed {
      OutcomesAt(audio, recognise, calls[|calls| - 1]);
    }
  }

  /**
    Every call is made on a window the loop reached: no window before it made
    the recogniser raise, so the calls stop at the first exception.
  */
  lemma TranscriptCallsReached(audio: seq<Sample>, recognise: Recogniser)
    ensures var calls := Transcript(audio, recognise).calls;
      forall j :: 0 <= j < |calls| ==>
        calls[j] < SegmentCount(|audio|) && Reached(audio, recognise, calls[j])
  {
    var os := Outcomes(audio, recognise);
    assert Transcript(audio, recognise) == Replay(os, |os|);
    ReplayCallsReached(os, |os|);
    var calls := Replay(os, |os|).calls;
    forall j | 0 <= j < |calls|
      ensures calls[j] < SegmentCount(|audio|) && Reached(audio, recognise, calls[j])
    {
      ReachedIff(audio, recognise, calls[j]);
    }
  }

  /**
    There are never more lines than calls, nor more calls than windows that
    are not skipped; and strictly fewer lines than calls as soon as a call
    returned blank text.
  */
  lemma TranscriptLineCount(audio: seq<Sample>, recognise: Recogniser)
    ensures |Transcript(audio, recognise).lines| <= |Transcript(audio, recognise).calls|
    ensures |Transcript(audio, recognise).calls| <= |SubmittedUpTo(|audio|, SegmentCount(|audio|))|
    ensures (exists c :: c in Transcript(audio, recognise).calls && c < SegmentCount(|audio|) && IsBlank(audio, recognise, c)) ==>
      |Transcript(audio, recognise).lines| < |Transcript(audio, recognise).calls|
  {
    var os := Outcomes(audio, recognise);
    assert Transcript(audio, recognise) == Replay(os, |os|);
    ReplayLineCount(os, |os|);
    TranscriptCalls(audio, recognise);
    if c :| c in Replay(os, |os|).calls && c < |os| && IsBlank(audio, recognise, c) {
      OutcomesAt(audio, recognise, c);
    }
  }

  /** An empty buffer has no windows: the recogniser is never called and the file stays empty. */
  lemma EmptyAudioEmptyTranscript(recognise: Recogniser)
    ensures Transcript([], recognise) == Run([], [], true)
  {
  }

  /** The loop's bounds for window `i` are those of the segmenter, and its slice is the window. */
  lemma LoopBounds(audio: seq<Sample>, i: nat)
    requires i < SegmentCount(|audio|)
    ensures var start := i * SegmentSamples;
      var end := if (i + 1) * SegmentSamples <= |audio| then (i + 1) * SegmentSamples else |audio|;
      && start == SegmentAt(|audio|, i).start && end == SegmentAt(|audio|, i).end
      && start <= end <= |audio| && audio[start..end] == Window(audio, i)
      && (end - start < MinSegmentSamples <==> Skipped(|audio|, i))
  {
  }

  /** An iteration whose window is too short changes nothing. */
  lemma SkipStep(audio: seq<Sample>, recognise: Recogniser, i: nat)
    requires i < SegmentCount(|audio|) && Skipped(|audio|, i)
    ensures Replay(Outcomes(audio, recognise), i + 1) == Replay(Outcomes(audio, recognise), i)
  {
    OutcomesAt(audio, recognise, i);
  }

  /** An iteration whose call raises records the call and ends the run. */
  lemma RaiseStep(audio: seq<Sample>, recognise: Recogniser, i: nat)
    requires i < SegmentCount(|audio|) && Fails(audio, recognise, i)
    requires Replay(Outcomes(audio, recognise), i).completed
    ensures var r := Replay(Outcomes(audio, recognise), i);
      Replay(Outcomes(audio, recognise), i + 1) == Run(r.lines, r.calls + [i], false)
  {
    OutcomesAt(audio, recognise, i);
  }

  /**
    An iteration whose call returns records the call, and appends the line of
    the window with the stripped text unless that text is empty.
  */
  lemma ReplyStep(audio: seq<Sample>, recognise: Recogniser, i: nat)
    requires i < SegmentCount(|audio|) && !Skipped(|audio|, i)
    requires recognise(Window(audio, i)).Returned?
    requires Replay(Outcomes(audio, recognise), i).completed
    ensures var r := Replay(Outcomes(audio, recognise), i);
      var text := ReplyText(recognise(Window(audio, i)).text);
      Replay(Outcomes(audio, recognise), i + 1) ==
        if text == [] then Run(r.lines, r.calls + [i], true)
        else Run(r.lines + [Line(i, SegmentAt(|audio|, i).start, SegmentAt(|audio|, i).end, text)], r.calls + [i], true)
  {
    OutcomesAt(audio, recognise, i);
  }

  /**
    The file at `out_path`: whether it exists on disk and the lines it holds.
    The script's handle `f` appends to it. Closing it when the `with` block
    exits, normally or because the recogniser raised, is abstracted away: what
    was written is in the file.
  */
  class TranscriptFile {
    const path: string
    var onDisk: bool
    var lines: seq<Line>

    /** A file that does not exist holds nothing. */
    ghost predicate Valid()
      reads this
    {
      !onDisk ==> lines == []
    }

    /** The file as found on disk before the run, possibly left by an earlier run. */
    constructor (path: string, onDisk: bool, lines: seq<Line>)
      requires onDisk || lines == []
      ensures Valid()
      ensures this.path == path && this.onDisk == onDisk && this.lines == lines
    {
      this.path := path;
      this.onDisk := onDisk;
      this.lines := lines;
    }

    /** `os.remove(out_path)`. */
    method Remove()
      requires onDisk
      modifies this
      ensures Valid()
      ensures !onDisk && lines == []
    {
      onDisk := false;
      lines := [];
    }

    /** `open(out_path, "a")`: creates the file when missing, keeps what it holds otherwise. */
    method OpenForAppend()
      requires Valid()
      modifies this
      ensures Valid()
      ensures onDisk && lines == old(lines)
    {
      onDisk := true;
    }

    /** `f.write(...)`: appends one line at the end. */
    method Write(line: Line)
      requires onDisk
      modifies this
      ensures Valid()
      ensures onDisk && lines == old(lines) + [line]
    {
      lines := lines + [line];
    }
  }

  /**
    Lines 30-63 of the script: clear the transcript file, then transcribe the
    windows one by one. Returns the indices handed to the recogniser and
    whether the loop ran to its end. Whatever the file held before, it ends
    up holding exactly the transcript's lines.
  */
  method TranscribeSegments(wavPath: string, audio: seq<Sample>, recognise: Recogniser, f: TranscriptFile)
    returns (calls: seq<nat>, completed: bool)
    requires f.path == OutputPathOf(wavPath) && f.Valid()
    modifies f
    ensures f.Valid() && f.onDisk
    ensures f.lines == Transcript(audio, recognise).lines
    ensures calls == Transcript(audio, recognise).calls
    ensures completed == Transcript(audio, recognise).completed
  {
    if f.onDisk {
      f.Remove();
    }
    f.OpenForAppend();
    var total := |audio|;
    var segmentCount := SegmentCount(total);
    calls := [];
    ghost var outcomes := Outcomes(audio, recognise);
    for i := 0 to segmentCount
      invariant f.Valid() && f.onDisk
      invariant Run(f.lines, calls, true) == Replay(outcomes, i)
    {
      var start := i * SegmentSamples;
      var end := if (i + 1) * SegmentSamples <= total then (i + 1) * SegmentSamples else total;
      LoopBounds(audio, i);
      var segmentAudio := audio[start..end];
      if |segmentAudio| < MinSegmentSamples {
        SkipStep(audio, recognise, i);
        continue;
      }
      calls := calls + [i];
      var result := recognise(segmentAudio);
      if result.Raised? {
        completed := false;
        RaiseStep(audio, recognise, i);
        ReplayStopsAfterFailure(outcomes, i + 1, segmentCount);
        assert Transcript(audio, recognise) == Replay(outcomes, segmentCount);
        return;
      }
      ReplyStep(audio, recognise, i);
      var text := ReplyText(result.text);
      if text != [] {
        f.Write(Line(i, start, end, text));
      }
    }
    completed := true;
    assert Transcript(audio, recognise) == Replay(outcomes, segmentCount);
  }

  /**
    Running the script twice over the same audio, with a deterministic
    recogniser, leaves the same transcript: the first run's file is removed
    before the second writes anything.
  */
  method RerunReproducesTranscript(wavPath: string, audio: seq<Sample>, recognise: Recogniser, f: TranscriptFile)
    returns (first: seq<Line>)
    requires f.path == OutputPathOf(wavPath) && f.Valid()
    modifies f
    ensures first == Transcript(audio, recognise).lines
    ensures f.lines == first
  {
    var _, _ := TranscribeSegments(wavPath, audio, recognise, f);
    first := f.lines;
    var _, _ := TranscribeSegments(wavPath, audio, recognise, f);
  }
}
