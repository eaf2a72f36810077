/** The DVD ripper's pure parts (backend/digitizer/ripper.py): the remux
    command, the reading of ffmpeg's progress lines and the percentage
    derived from them. Running dvdbackup, ffmpeg and eject is left to the
    environment. */
module Ripper {
  import opened Wrappers
  import opened Text
  import CommandLine
  import FfmpegTime

  /** Python's `int(x)` on a float: truncation toward zero. */
  function Trunc(x: real): (r: int)
    ensures x >= 0.0 ==> r as real <= x < r as real + 1.0
    ensures x < 0.0 ==> r as real - 1.0 < x <= r as real
  {
    if x >= 0.0 then x.Floor else -((-x).Floor)
  }

  /** Percentage of `total` seconds that `current` seconds represent, capped at 100. */
  function CalculateProgress(current: real, total: real): (r: int)
    ensures total <= 0.0 ==> r == 0
    ensures r <= 100
    ensures total > 0.0 ==> (r == 100 <==> current >= total)
    ensures total > 0.0 && current >= 0.0 ==> 0 <= r
    ensures total > 0.0 && current >= 0.0 && r < 100 ==>
      r as real <= (current / total) * 100.0 < r as real + 1.0
  {
    if total <= 0.0 then 0
    else
      var t := Trunc((current / total) * 100.0);
      RatioAtLeastOne(current, total);
      if t <= 100 then t else 100
  }

  lemma RatioAtLeastOne(current: real, total: real)
    requires total > 0.0
    ensures current / total >= 1.0 <==> current >= total
  {
    var q := current / total;
    assert q * total == current;
    if q >= 1.0 {
      assert q * total >= 1.0 * total;
    } else {
      assert q * total < 1.0 * total;
    }
  }

  /** For a fixed positive total, the percentage never decreases as the
      position advances. */
  lemma ProgressMonotone(c1: real, c2: real, total: real)
    requires total > 0.0 && c1 <= c2
    ensures CalculateProgress(c1, total) <= CalculateProgress(c2, total)
  {
    var x1, x2 := (c1 / total) * 100.0, (c2 / total) * 100.0;
    assert x1 <= x2 by {
      assert c1 / total <= c2 / total;
    }
    TruncMonotone(x1, x2);
  }

  lemma TruncMonotone(x: real, y: real)
    requires x <= y
    ensures Trunc(x) <= Trunc(y)
  {
    if x >= 0.0 {
      assert x.Floor <= y.Floor;
    } else if y < 0.0 {
      assert (-y).Floor <= (-x).Floor;
    }
  }

  /** The values the tests check: halfway, the end, and the start. */
  lemma ProgressExamples()
    ensures CalculateProgress(45.0, 90.0) == 50
    ensures CalculateProgress(90.0, 90.0) == 100
    ensures CalculateProgress(0.0, 90.0) == 0
  {
    assert (45.0 / 90.0) * 100.0 == 50.0;
    assert (0.0 / 90.0) * 100.0 == 0.0;
  }

  /** `build_ffmpeg_command`: remux the extracted title without transcoding. */
  function RemuxCommand(input: string, output: string): (cmd: seq<string>)
    ensures |cmd| >= 1 && cmd[0] == "ffmpeg" && Last(cmd) == output
  {
    ["ffmpeg", "-y", "-hwaccel", "auto", "-i", input, "-c", "copy", "-movflags", "+faststart", output]
  }

  /** ffmpeg reads the hardware-acceleration choice, the input and the
      stream-copy codec back out of the command. */
  lemma RemuxCommandOptions(input: string, output: string)
    requires input != "-c"
    ensures CommandLine.FlagValue(RemuxCommand(input, output), "-i") == Some(input)
    ensures CommandLine.FlagValue(RemuxCommand(input, output), "-c") == Some("copy")
    ensures CommandLine.FlagValue(RemuxCommand(input, output), "-hwaccel") == Some("auto")
  {
    var cmd := RemuxCommand(input, output);
    assert cmd[..4] == ["ffmpeg", "-y", "-hwaccel", "auto"];
    CommandLine.FlagValueAt(cmd, "-i", 4, input);
    assert cmd[..6] == ["ffmpeg", "-y", "-hwaccel", "auto", "-i", input];
    CommandLine.FlagValueAt(cmd, "-c", 6, "copy");
    assert cmd[..2] == ["ffmpeg", "-y"];
    CommandLine.FlagValueAt(cmd, "-hwaccel", 2, "auto");
  }

  /** Percentages the rip reports for ffmpeg's stderr lines against a title
      of `duration` seconds: one per line that carries a time, in order. */
  function ProgressReports(lines: seq<string>, duration: real): (r: seq<int>)
    ensures |r| == |FfmpegTime.Times(lines)|
    ensures forall k :: 0 <= k < |r| ==> r[k] <= 100
    ensures duration > 0.0 ==> forall k :: 0 <= k < |r| ==> 0 <= r[k]
  {
    var times := FfmpegTime.Times(lines);
    seq(|times|, k requires 0 <= k < |times| => CalculateProgress(times[k], duration))
  }

  /** While ffmpeg's clock runs forward, the reported percentages do too. */
  lemma ReportsNondecreasing(lines: seq<string>, duration: real)
    requires duration > 0.0
    requires FfmpegTime.Nondecreasing(FfmpegTime.Times(lines))
    ensures forall i, j :: 0 <= i <= j < |ProgressReports(lines, duration)| ==>
      ProgressReports(lines, duration)[i] <= ProgressReports(lines, duration)[j]
  {
    var times := FfmpegTime.Times(lines);
    forall i, j | 0 <= i <= j < |times|
      ensures CalculateProgress(times[i], duration) <= CalculateProgress(times[j], duration)
    {
      ProgressMonotone(times[i], times[j], duration);
    }
  }
}
