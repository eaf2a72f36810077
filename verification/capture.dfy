/** The tape capture (backend/digitizer/capture.py): its ffmpeg command and
    the recording flag and process handle that guard `start` and `stop`.
    The process itself is the environment's: it supplies the process id, the
    stderr lines, the sizes the output file is seen to have, and how the run
    ended. */
module Capture {
  import opened Wrappers
  import opened Text
  import CommandLine
  import FfmpegTime

  /** Constructor arguments of the capture. */
  datatype Config = Config(device: string, preset: string, crf: int, audioBitrate: string)

  const DefaultConfig := Config("/dev/video0", "fast", 23, "192k")

  /** `build_ffmpeg_command`: record the device to H.264/AAC at `output`. */
  function CaptureCommand(cfg: Config, output: string): (cmd: seq<string>)
    ensures |cmd| >= 1 && cmd[0] == "ffmpeg" && Last(cmd) == output
  {
    ["ffmpeg", "-y", "-f", "v4l2", "-i", cfg.device, "-c:v", "libx264", "-preset", cfg.preset,
     "-crf", IntToString(cfg.crf), "-c:a", "aac", "-b:a", cfg.audioBitrate, "-movflags", "+faststart", output]
  }

  /** ffmpeg reads the v4l2 input format back out of the command. */
  lemma FormatOption(cfg: Config, output: string)
    ensures CommandLine.FlagValue(CaptureCommand(cfg, output), "-f") == Some("v4l2")
  {
    var cmd := CaptureCommand(cfg, output);
    assert cmd[..2] == ["ffmpeg", "-y"] && "-y"[1] != "-f"[1];
    CommandLine.FlagValueAt(cmd, "-f", 2, "v4l2");
  }

  /** ffmpeg reads the device back out of the command. */
  lemma DeviceOption(cfg: Config, output: string)
    ensures CommandLine.FlagValue(CaptureCommand(cfg, output), "-i") == Some(cfg.device)
  {
    var cmd := CaptureCommand(cfg, output);
    assert cmd[..4] == ["ffmpeg", "-y", "-f", "v4l2"] && "-y"[1] != "-i"[1] && "-f"[1] != "-i"[1];
    CommandLine.FlagValueAt(cmd, "-i", 4, cfg.device);
  }

  /** ffmpeg reads the preset back, unless the device path is itself the option name. */
  lemma PresetOption(cfg: Config, output: string)
    requires cfg.device != "-preset"
    ensures CommandLine.FlagValue(CaptureCommand(cfg, output), "-preset") == Some(cfg.preset)
  {
    assert "libx264"[0] != "-preset"[0];
    assert "-c:v"[1] != "-preset"[1];
    assert CaptureCommand(cfg, output)[..8] == ["ffmpeg", "-y", "-f", "v4l2", "-i", cfg.device, "-c:v", "libx264"];
    CommandLine.FlagValueAt(CaptureCommand(cfg, output), "-preset", 8, cfg.preset);
  }

  /** ffmpeg reads the quality back as a decimal that parses to the configured number. */
  lemma QualityOption(cfg: Config, output: string)
    requires cfg.device != "-crf" && cfg.preset != "-crf"
    ensures CommandLine.FlagValue(CaptureCommand(cfg, output), "-crf") == Some(IntToString(cfg.crf))
    ensures ParseInt(IntToString(cfg.crf)) == Some(cfg.crf)
  {
    assert "libx264"[0] != "-crf"[0];
    assert "-c:v"[2] != "-crf"[2];
    assert "-preset"[1] != "-crf"[1];
    assert CaptureCommand(cfg, output)[..10] == ["ffmpeg", "-y", "-f", "v4l2", "-i", cfg.device, "-c:v", "libx264", "-preset", cfg.preset];
    CommandLine.FlagValueAt(CaptureCommand(cfg, output), "-crf", 10, IntToString(cfg.crf));
  }

  /** ffmpeg reads the audio bitrate back. */
  lemma BitrateOption(cfg: Config, output: string)
    requires cfg.device != "-b:a" && cfg.preset != "-b:a"
    ensures CommandLine.FlagValue(CaptureCommand(cfg, output), "-b:a") == Some(cfg.audioBitrate)
  {
    var crf := IntToString(cfg.crf);
    assert crf != "-b:a" by {
      assert ParseInt("-b:a") == None by { assert !IsDigit("-b:a"[1]); }
    }
    assert "libx264"[0] != "-b:a"[0];
    assert "-c:v"[1] != "-b:a"[1];
    assert "-c:a"[1] != "-b:a"[1];
    assert "-preset"[1] != "-b:a"[1];
    assert "-crf"[1] != "-b:a"[1];
    assert CaptureCommand(cfg, output)[..14] == ["ffmpeg", "-y", "-f", "v4l2", "-i", cfg.device, "-c:v", "libx264", "-preset", cfg.preset,
     "-crf", crf, "-c:a", "aac"];
    CommandLine.FlagValueAt(CaptureCommand(cfg, output), "-b:a", 14, cfg.audioBitrate);
  }

  /** The settings of the tests' custom command put the quality 20 on the command line. */
  lemma CustomPresetExample()
    ensures "medium" in CaptureCommand(DefaultConfig.(preset := "medium", crf := 20), "/output/vhs/test.mp4")
    ensures "20" in CaptureCommand(DefaultConfig.(preset := "medium", crf := 20), "/output/vhs/test.mp4")
  {
    var cmd := CaptureCommand(DefaultConfig.(preset := "medium", crf := 20), "/output/vhs/test.mp4");
    assert cmd[9] == "medium";
    assert IntToString(20) == "20";
    assert cmd[11] == "20";
  }

  /** `_recording` and `_process` (a process is named by its id). */
  datatype State = State(recording: bool, process: Option<nat>)

  const Idle := State(false, None)

  /** A recording capture always holds its process. */
  predicate Valid(st: State) {
    st.recording ==> st.process.Some?
  }

  /** The signal `stop` sends. */
  const Sigint := 2

  /** The first half of `start`: refuse while recording, else launch ffmpeg
      as process `pid` and raise the flag. */
  function Launch(st: State, pid: nat): (r: Result<State>)
    ensures st.recording <==> r.Err?
    ensures r.Err? ==> r.msg == "Already recording"
    ensures r.Ok? ==> r.value.recording && r.value.process == Some(pid)
  {
    if st.recording then Err("Already recording") else Ok(State(true, Some(pid)))
  }

  /** What `stop` did: the state after it and the signal it delivered. */
  datatype Stopped = Stopped(next: State, signal: int)

  /** `stop`: interrupt the running ffmpeg and wait for it; the process
      handle stays until `start` itself finishes. */
  function Stop(st: State): (r: Result<Stopped>)
    ensures r.Err? <==> !st.recording || st.process.None?
    ensures r.Err? ==> r.msg == "Not recording"
    ensures r.Ok? ==> r.value.signal == Sigint && !r.value.next.recording && r.value.next.process == st.process
  {
    if !st.recording || st.process.None? then Err("Not recording")
    else Ok(Stopped(State(false, st.process), Sigint))
  }

  /** The `finally` of `start`: whatever happened, drop the flag and the process. */
  function Finish(st: State): (r: State)
    ensures !r.recording && r.process.None?
  {
    Idle
  }

  /** An exit status counts as success when it is 0 or the -2 of an interrupt. */
  predicate CaptureSucceeded(code: int) {
    code == 0 || code == -2
  }

  /** How the streaming part of `start` ended. */
  datatype Exit = Exited(code: int) | Raised(error: string)

  /** One progress callback: seconds recorded and bytes on disk (0 when the
      file could not be measured). */
  datatype Report = Report(elapsed: real, fileSize: nat)

  /** What a call to `start` did. */
  datatype Outcome =
    | AlreadyRecording
    | LaunchFailed(error: string)
    | Finished(success: bool, reports: seq<Report>)
    | Aborted(error: string, reports: seq<Report>)

  /** The progress callbacks for ffmpeg's stderr lines: one per line that
      carries a time; `size(k)` is what the k-th measurement saw. */
  function Reports(lines: seq<string>, size: nat -> nat): (r: seq<Report>)
    ensures |r| == |FfmpegTime.Times(lines)|
    ensures forall k :: 0 <= k < |r| ==> r[k].elapsed == FfmpegTime.Times(lines)[k] && r[k].fileSize == size(k)
  {
    var times := FfmpegTime.Times(lines);
    seq(|times|, k requires 0 <= k < |times| => Report(times[k], size(k)))
  }

  /** A whole call to `start` from state `st`. `launched` is the process id
      ffmpeg received, or `None` when creating the directory or the process
      raised; `lines` are the stderr lines read before `exit`. */
  function Start(st: State, launched: Option<nat>, lines: seq<string>, size: nat -> nat, exit: Exit): (r: (Outcome, State))
    ensures st.recording ==> r == (AlreadyRecording, st)
    ensures !st.recording && launched.None? ==> r.0.LaunchFailed? && r.1 == st
    ensures !st.recording && launched.Some? ==> r.1 == Idle
    ensures r.0.Finished? <==> !st.recording && launched.Some? && exit.Exited?
    ensures r.0.Finished? ==> r.0.success == CaptureSucceeded(exit.code) && r.0.reports == Reports(lines, size)
  {
    match Launch(st, launched.GetOr(0))
    case Err(_) => (AlreadyRecording, st)
    case Ok(running) =>
      if launched.None? then (LaunchFailed("process could not be started"), st)
      else
        var reports := Reports(lines, size);
        var after := Finish(running);
        match exit
        case Exited(code) => (Finished(CaptureSucceeded(code), reports), after)
        case Raised(e) => (Aborted(e, reports), after)
  }

  /** Launching, stopping and finishing each keep the process with the flag. */
  lemma TransitionsKeepValid(st: State, pid: nat)
    requires Valid(st)
    ensures Launch(st, pid).Ok? ==> Valid(Launch(st, pid).value)
    ensures Stop(st).Ok? ==> Valid(Stop(st).value.next)
    ensures Valid(Finish(st))
  {
  }

  /** A recording interrupted by `stop` ends with ffmpeg's -2 and so counts
      as a success, and the capture is idle again, ready for the next start. */
  lemma StopThenFinish(pid: nat, lines: seq<string>, size: nat -> nat)
    ensures Launch(Idle, pid).Ok?
    ensures Stop(Launch(Idle, pid).value).Ok?
    ensures Stop(Launch(Idle, pid).value).value.signal == Sigint
    ensures Start(Idle, Some(pid), lines, size, Exited(-2)).0.Finished?
    ensures Start(Idle, Some(pid), lines, size, Exited(-2)).0.success
    ensures Launch(Start(Idle, Some(pid), lines, size, Exited(-2)).1, pid).Ok?
  {
  }
}
