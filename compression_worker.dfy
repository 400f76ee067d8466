/** `CompressionWorker` of utils/compression.py: one job reports progress and exactly one
    terminal result through its callbacks, and deletes the output file on the failures
    that may have left a partial one. The process, its threads and the filesystem are
    replaced by inputs: what launching ffmpeg gives (`Launch`), the line before which a
    `cancel()` arrives, and whether the file copy raises. */
module CompressionJob {
  import opened Wrappers
  import opened Text
  import opened Compression

  /** One callback call: `on_progress(percent)` or `on_complete(success, message)`. */
  datatype Event = Progress(percent: real) | Complete(success: bool, message: string)

  /** The outcome of starting ffmpeg: `Popen` raises `FileNotFoundError`, raises something
      else (`str(e)`), or runs, printing `lines` on stdout, exiting with `returnCode`, and
      leaving `stderr`. */
  datatype Launch =
    | FfmpegMissing
    | LaunchFailed(error: string)
    | Launched(lines: seq<string>, returnCode: int, stderr: string)

  const FfmpegMissingMessage: string := "FFmpeg not found. Please ensure FFmpeg is available."
  const ErrorLimit: nat := 500

  /** `s[:n]`. */
  function Truncate(s: string, n: nat): (r: string)
    ensures |r| <= n && |r| <= |s|
    ensures r == s[..|r|]
    ensures |s| <= n ==> r == s
  {
    if |s| <= n then s else s[..n]
  }

  /** How the loop reads one stdout line: the percentage it reports, if any. */
  function ReportOf(duration: Option<real>): string -> Option<real> {
    line => LineProgress(line, duration)
  }

  /** The reader never reports more than 99.9. */
  lemma ReportBound(duration: Option<real>)
    ensures forall line :: ReportOf(duration)(line).Some? ==> ReportOf(duration)(line).value <= 99.9
  {
    forall line | ReportOf(duration)(line).Some?
      ensures ReportOf(duration)(line).value <= 99.9
    {
      LineProgressSpec(line, duration);
    }
  }

  /** The progress callback one stdout line causes. */
  function ProgressOf(line: string, report: string -> Option<real>): seq<Event> {
    match report(line)
    case Some(p) => [Progress(p)]
    case None => []
  }

  /** The progress callbacks a run of stdout lines causes, in order. */
  function LineEvents(lines: seq<string>, report: string -> Option<real>): seq<Event>
    decreases |lines|
  {
    if lines == [] then []
    else LineEvents(lines[..|lines| - 1], report) + ProgressOf(lines[|lines| - 1], report)
  }

  /** Lines report at most one progress each, and never more than the reader does. */
  lemma {:induction false} LineEventsAreProgress(lines: seq<string>, report: string -> Option<real>, bound: real)
    requires forall line :: report(line).Some? ==> report(line).value <= bound
    ensures |LineEvents(lines, report)| <= |lines|
    ensures forall e :: e in LineEvents(lines, report) ==> e.Progress? && e.percent <= bound
  {
    if lines != [] {
      LineEventsAreProgress(lines[..|lines| - 1], report, bound);
    }
  }

  /** The loop notices the cancel flag before line `cancelAt` when that line exists. */
  predicate CancelSeen(lines: seq<string>, cancelAt: Option<nat>) {
    cancelAt.Some? && cancelAt.value < |lines|
  }

  /** The callbacks of the ffmpeg path, from launch to the terminal result. */
  function TranscodeEvents(launch: Launch, cancelAt: Option<nat>, report: string -> Option<real>): seq<Event> {
    match launch
    case FfmpegMissing => [Complete(false, FfmpegMissingMessage)]
    case LaunchFailed(e) => [Complete(false, "Error: " + e)]
    case Launched(lines, rc, stderr) =>
      if CancelSeen(lines, cancelAt) then
        LineEvents(lines[..cancelAt.value], report) + [Complete(false, "Compression cancelled.")]
      else
        LineEvents(lines, report)
        + if rc == 0 then [Progress(100.0), Complete(true, "Compression complete.")]
          else [Complete(false, "FFmpeg error: " + Truncate(stderr, ErrorLimit))]
  }

  /** One more line read adds that line's progress, if any. */
  lemma LineEventsStep(lines: seq<string>, i: nat, report: string -> Option<real>)
    requires i < |lines|
    ensures LineEvents(lines[..i + 1], report) == LineEvents(lines[..i], report) + ProgressOf(lines[i], report)
  {
    assert lines[..i + 1][..i] == lines[..i];
  }

  /** A cancel seen before line `i` is read ends the callbacks there. */
  lemma CancelledEvents(lines: seq<string>, rc: int, stderr: string, i: nat, report: string -> Option<real>)
    requires i < |lines|
    ensures TranscodeEvents(Launched(lines, rc, stderr), Some(i), report)
      == LineEvents(lines[..i], report) + [Complete(false, "Compression cancelled.")]
    ensures TranscodeRemovesOutput(Launched(lines, rc, stderr), Some(i))
  {
  }

  /** Without a cancel the exit code decides the last callbacks. */
  lemma FinishedEvents(lines: seq<string>, rc: int, stderr: string, cancelAt: Option<nat>, report: string -> Option<real>)
    requires !CancelSeen(lines, cancelAt)
    ensures TranscodeEvents(Launched(lines, rc, stderr), cancelAt, report)
      == LineEvents(lines, report)
         + if rc == 0 then [Progress(100.0), Complete(true, "Compression complete.")]
           else [Complete(false, "FFmpeg error: " + Truncate(stderr, ErrorLimit))]
    ensures TranscodeRemovesOutput(Launched(lines, rc, stderr), cancelAt) <==> rc != 0
  {
  }

  /** The ffmpeg path deletes the output after a launch error, a cancel, or a non-zero
      exit. */
  predicate TranscodeRemovesOutput(launch: Launch, cancelAt: Option<nat>) {
    match launch
    case FfmpegMissing => false
    case LaunchFailed(_) => true
    case Launched(lines, rc, _) => CancelSeen(lines, cancelAt) || rc != 0
  }

  /** The callbacks of the copy path: 0.0, then 100.0 and success, or the exception's
      text. */
  function CopyEvents(copyError: Option<string>): seq<Event> {
    [Progress(0.0)]
    + if copyError.None? then [Progress(100.0), Complete(true, "File copied successfully.")]
      else [Complete(false, copyError.value)]
  }

  /** The callbacks of `_run_compression` for a preset. */
  function RunEvents(p: Preset, copyError: Option<string>, banner: string, launch: Launch, cancelAt: Option<nat>): seq<Event> {
    if p.codec == "copy" then CopyEvents(copyError)
    else TranscodeEvents(launch, cancelAt, ReportOf(VideoDuration(banner)))
  }

  predicate RunRemovesOutput(p: Preset, launch: Launch, cancelAt: Option<nat>) {
    p.codec != "copy" && TranscodeRemovesOutput(launch, cancelAt)
  }

  /** The callbacks of `compress` for a preset key. */
  function JobEvents(presetKey: string, copyError: Option<string>, banner: string, launch: Launch,
                     cancelAt: Option<nat>): seq<Event>
  {
    match PresetFor(presetKey)
    case None => [Complete(false, "Unknown preset: " + presetKey)]
    case Some(p) => RunEvents(p, copyError, banner, launch, cancelAt)
  }

  predicate JobRemovesOutput(presetKey: string, launch: Launch, cancelAt: Option<nat>) {
    PresetFor(presetKey).Some? && RunRemovesOutput(PresetFor(presetKey).value, launch, cancelAt)
  }

  /** The job succeeds exactly on a known preset whose copy does not fail, or whose ffmpeg
      run is neither cancelled nor exits non-zero. */
  predicate JobSucceeds(presetKey: string, copyError: Option<string>, launch: Launch, cancelAt: Option<nat>) {
    && PresetFor(presetKey).Some?
    && if PresetFor(presetKey).value.codec == "copy" then copyError.None?
       else launch.Launched? && !CancelSeen(launch.lines, cancelAt) && launch.returnCode == 0
  }

  /** The ffmpeg path reports exactly one terminal result, last, after progress reports
      no larger than the reader's bound or 100; it succeeds exactly when ffmpeg ran, was
      not cancelled, and exited with 0. */
  lemma TranscodeOutcome(launch: Launch, cancelAt: Option<nat>, report: string -> Option<real>, bound: real)
    requires bound <= 100.0
    requires forall line :: report(line).Some? ==> report(line).value <= bound
    ensures var ev := TranscodeEvents(launch, cancelAt, report);
      && |ev| >= 1 && ev[|ev| - 1].Complete?
      && (forall i :: 0 <= i < |ev| - 1 ==> ev[i].Progress? && ev[i].percent <= 100.0)
      && (ev[|ev| - 1].success <==> launch.Launched? && !CancelSeen(launch.lines, cancelAt) && launch.returnCode == 0)
  {
    if launch.Launched? {
      var ev := TranscodeEvents(launch, cancelAt, report);
      var lines := launch.lines;
      var shown := if CancelSeen(lines, cancelAt) then lines[..cancelAt.value] else lines;
      LineEventsAreProgress(shown, report, bound);
      var progress := LineEvents(shown, report);
      assert ev[..|progress|] == progress;
      forall i | 0 <= i < |ev| - 1
        ensures ev[i].Progress? && ev[i].percent <= 100.0
      {
        if i < |progress| {
          assert ev[i] == progress[i];
          assert progress[i] in progress;
        }
      }
    }
  }

  /** Every job reports exactly one terminal result, last; everything before it is a
      progress report of at most 100; the result is a success exactly as `JobSucceeds`
      says. */
  lemma JobOutcome(presetKey: string, copyError: Option<string>, banner: string, launch: Launch, cancelAt: Option<nat>)
    ensures var ev := JobEvents(presetKey, copyError, banner, launch, cancelAt);
      && |ev| >= 1 && ev[|ev| - 1].Complete?
      && (forall i :: 0 <= i < |ev| - 1 ==> ev[i].Progress? && ev[i].percent <= 100.0)
      && (ev[|ev| - 1].success <==> JobSucceeds(presetKey, copyError, launch, cancelAt))
  {
    if PresetFor(presetKey).Some? && PresetFor(presetKey).value.codec != "copy" {
      ReportBound(VideoDuration(banner));
      TranscodeOutcome(launch, cancelAt, ReportOf(VideoDuration(banner)), 99.9);
    }
  }

  /** The output file is deleted only after a failure, and after every failure of the
      ffmpeg path except a missing ffmpeg. */
  lemma JobRemovesOnlyOnFailure(presetKey: string, copyError: Option<string>, launch: Launch, cancelAt: Option<nat>)
    ensures JobRemovesOutput(presetKey, launch, cancelAt) ==> !JobSucceeds(presetKey, copyError, launch, cancelAt)
    ensures PresetFor(presetKey).Some? && PresetFor(presetKey).value.codec != "copy" && !launch.FfmpegMissing?
            && !JobSucceeds(presetKey, copyError, launch, cancelAt)
            ==> JobRemovesOutput(presetKey, launch, cancelAt)
  {
  }

  /** After a cancel no progress follows: the run reports at most one progress per line
      read before the cancel, and then only the cancellation. */
  lemma CancelStopsProgress(p: Preset, copyError: Option<string>, banner: string, launch: Launch, cancelAt: Option<nat>)
    requires p.codec != "copy" && launch.Launched? && CancelSeen(launch.lines, cancelAt)
    ensures var ev := RunEvents(p, copyError, banner, launch, cancelAt);
      && |ev| <= cancelAt.value + 1
      && ev[|ev| - 1] == Complete(false, "Compression cancelled.")
  {
    ReportBound(VideoDuration(banner));
    LineEventsAreProgress(launch.lines[..cancelAt.value], ReportOf(VideoDuration(banner)), 99.9);
  }

  /** A failed exit reports at most the first 500 characters of stderr. */
  lemma ErrorMessageBound(launch: Launch, cancelAt: Option<nat>, report: string -> Option<real>)
    requires launch.Launched? && !CancelSeen(launch.lines, cancelAt) && launch.returnCode != 0
    ensures var ev := TranscodeEvents(launch, cancelAt, report);
      && ev[|ev| - 1].Complete?
      && |ev[|ev| - 1].message| <= 14 + ErrorLimit
      && ev[|ev| - 1].message[14..] == launch.stderr[..|ev[|ev| - 1].message| - 14]
  {
    var ev := TranscodeEvents(launch, cancelAt, report);
    var t := Truncate(launch.stderr, ErrorLimit);
    assert ev[|ev| - 1].message == "FFmpeg error: " + t;
    assert ("FFmpeg error: " + t)[14..] == t;
  }

  /** The worker: the cancel flag, whether a process is attached, and what it has done so
      far: the callbacks it made, the paths `_cleanup` deleted, and the last command it
      started. */
  class CompressionWorker {
    var cancelled: bool
    var processRunning: bool
    var events: seq<Event>
    var removed: seq<string>
    var lastCommand: seq<string>

    constructor()
      ensures !cancelled && !processRunning
      ensures events == [] && removed == [] && lastCommand == []
    {
      cancelled := false;
      processRunning := false;
      events := [];
      removed := [];
      lastCommand := [];
    }

    /** `cancel`: raise the flag; the running process is asked to terminate, which the
        stdout loop then notices. */
    method Cancel()
      modifies this
      ensures cancelled
      ensures processRunning == old(processRunning) && events == old(events)
      ensures removed == old(removed) && lastCommand == old(lastCommand)
    {
      cancelled := true;
    }

    /** `_cleanup`: delete the output path if it exists. */
    method Cleanup(output: string)
      modifies this
      ensures removed == old(removed) + [output]
      ensures cancelled == old(cancelled) && processRunning == old(processRunning)
      ensures events == old(events) && lastCommand == old(lastCommand)
    {
      removed := removed + [output];
    }

    /** `compress`: reset the flag, reject an unknown preset, otherwise run the job (the
        thread it starts is run to its end here). */
    method Compress(input: string, output: string, presetKey: string, ffmpeg: string,
                    copyError: Option<string>, banner: string, launch: Launch, cancelAt: Option<nat>)
      modifies this
      ensures events == old(events) + JobEvents(presetKey, copyError, banner, launch, cancelAt)
      ensures removed == old(removed) + if JobRemovesOutput(presetKey, launch, cancelAt) then [output] else []
      ensures processRunning == if PresetFor(presetKey).Some? && PresetFor(presetKey).value.codec != "copy"
                                then false else old(processRunning)
      ensures cancelled <==> PresetFor(presetKey).Some? && PresetFor(presetKey).value.codec != "copy"
                             && launch.Launched? && cancelAt.Some?
      ensures lastCommand == if PresetFor(presetKey).Some? && PresetFor(presetKey).value.codec != "copy"
                             then BuildCommand(ffmpeg, input, PresetFor(presetKey).value, output)
                             else old(lastCommand)
    {
      cancelled := false;
      var preset := PresetFor(presetKey);
      if preset.None? {
        events := events + [Complete(false, "Unknown preset: " + presetKey)];
        return;
      }
      RunCompression(input, output, preset.value, ffmpeg, copyError, banner, launch, cancelAt);
    }

    /** `_run_compression`: the copy path, or ffmpeg with the preset's command, reading
        stdout line by line until it ends or the cancel flag is seen. */
    method RunCompression(input: string, output: string, p: Preset, ffmpeg: string,
                          copyError: Option<string>, banner: string, launch: Launch, cancelAt: Option<nat>)
      requires !cancelled
      modifies this
      ensures events == old(events) + RunEvents(p, copyError, banner, launch, cancelAt)
      ensures removed == old(removed) + if RunRemovesOutput(p, launch, cancelAt) then [output] else []
      ensures processRunning == if p.codec == "copy" then old(processRunning) else false
      ensures cancelled <==> p.codec != "copy" && launch.Launched? && cancelAt.Some?
      ensures lastCommand == if p.codec != "copy" then BuildCommand(ffmpeg, input, p, output) else old(lastCommand)
    {
      if p.codec == "copy" {
        events := events + [Progress(0.0)];
        if copyError.None? {
          events := events + [Progress(100.0), Complete(true, "File copied successfully.")];
        } else {
          events := events + [Complete(false, copyError.value)];
        }
        return;
      }
      var duration := VideoDuration(banner);
      lastCommand := BuildCommand(ffmpeg, input, p, output);
      match launch {
      case FfmpegMissing =>
        events := events + [Complete(false, FfmpegMissingMessage)];
      case LaunchFailed(e) =>
        Cleanup(output);
        events := events + [Complete(false, "Error: " + e)];
      case Launched(lines, rc, stderr) =>
        processRunning := true;
        ReadOutput(output, lines, rc, stderr, ReportOf(duration), cancelAt);
      }
      processRunning := false;
    }

    /** The `Popen` branch of `_run_compression`: read stdout line by line, stopping at the
        cancel flag, then report by the exit code. */
    method ReadOutput(output: string, lines: seq<string>, rc: int, stderr: string,
                      report: string -> Option<real>, cancelAt: Option<nat>)
      requires !cancelled
      modifies this
      ensures events == old(events) + TranscodeEvents(Launched(lines, rc, stderr), cancelAt, report)
      ensures removed == old(removed) + if TranscodeRemovesOutput(Launched(lines, rc, stderr), cancelAt) then [output] else []
      ensures cancelled <==> cancelAt.Some?
      ensures processRunning == old(processRunning) && lastCommand == old(lastCommand)
    {
      var stopped := ReadLines(output, lines, report, cancelAt);
      if stopped {
        CancelledEvents(lines, rc, stderr, cancelAt.value, report);
        return;
      }
      FinishedEvents(lines, rc, stderr, cancelAt, report);
      if cancelAt.Some? {
        Cancel();
      }
      if rc == 0 {
        events := events + [Progress(100.0), Complete(true, "Compression complete.")];
      } else {
        Cleanup(output);
        events := events + [Complete(false, "FFmpeg error: " + Truncate(stderr, ErrorLimit))];
      }
    }

    /** The `for line in process.stdout` loop: each line's progress is reported until the
        cancel flag is seen, which deletes the output and reports the cancel. */
    method ReadLines(output: string, lines: seq<string>, report: string -> Option<real>, cancelAt: Option<nat>)
      returns (stopped: bool)
      requires !cancelled
      modifies this
      ensures stopped <==> CancelSeen(lines, cancelAt)
      ensures stopped ==> cancelled && removed == old(removed) + [output]
      ensures stopped ==>
        events == old(events) + LineEvents(lines[..cancelAt.value], report) + [Complete(false, "Compression cancelled.")]
      ensures !stopped ==> !cancelled && removed == old(removed) && events == old(events) + LineEvents(lines, report)
      ensures processRunning == old(processRunning) && lastCommand == old(lastCommand)
    {
      var i := 0;
      while i < |lines|
        invariant 0 <= i <= |lines|
        invariant events == old(events) + LineEvents(lines[..i], report)
        invariant removed == old(removed) && !cancelled
        invariant cancelAt.None? || cancelAt.value >= i
        invariant processRunning == old(processRunning) && lastCommand == old(lastCommand)
      {
        if cancelAt == Some(i) {
          Cancel();
        }
        if cancelled {
          Cleanup(output);
          events := events + [Complete(false, "Compression cancelled.")];
          return true;
        }
        LineEventsStep(lines, i, report);
        events := events + ProgressOf(lines[i], report);
        i := i + 1;
      }
      assert lines[..i] == lines;
      return false;
    }
  }
}
