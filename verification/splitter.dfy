/** Cutting a video into its scenes (backend/digitizer/splitter.py): one
    stream-copy ffmpeg run per scene, in order, collecting the files that
    were written and reporting progress after each. The runs themselves are
    the environment's: their exit codes are an input. `on_progress` is
    optional in the code; the reports modelled here are the calls a supplied
    callback receives, and without one nothing is reported. */
module Splitter {
  import opened Wrappers
  import opened Text
  import CommandLine
  import Ripper
  import SceneDetector

  /** `build_split_command`; the times arrive already rendered as `:.3f` text. */
  function SplitCommand(input: string, startStamp: string, endStamp: string, output: string): (cmd: seq<string>)
    ensures |cmd| >= 1 && cmd[0] == "ffmpeg" && Last(cmd) == output
  {
    ["ffmpeg", "-y", "-i", input, "-ss", startStamp, "-to", endStamp, "-c", "copy", "-movflags", "+faststart", output]
  }

  /** ffmpeg reads the input and the stream copy back out of the command. */
  lemma SplitInputOptions(input: string, startStamp: string, endStamp: string, output: string)
    requires input != "-c" && startStamp != "-c" && endStamp != "-c"
    ensures CommandLine.FlagValue(SplitCommand(input, startStamp, endStamp, output), "-i") == Some(input)
    ensures CommandLine.FlagValue(SplitCommand(input, startStamp, endStamp, output), "-c") == Some("copy")
  {
    var cmd := SplitCommand(input, startStamp, endStamp, output);
    assert "-y"[1] != "-i"[1];
    assert cmd[..2] == ["ffmpeg", "-y"];
    CommandLine.FlagValueAt(cmd, "-i", 2, input);
    assert "-y"[1] != "-c"[1] && "-i"[1] != "-c"[1] && "-ss"[1] != "-c"[1] && "-to"[1] != "-c"[1];
    assert cmd[..8] == ["ffmpeg", "-y", "-i", input, "-ss", startStamp, "-to", endStamp];
    CommandLine.FlagValueAt(cmd, "-c", 8, "copy");
  }

  /** ffmpeg reads the cut's start and end back out of the command, the
      first start option standing before the first end option. */
  lemma SplitRangeOptions(input: string, startStamp: string, endStamp: string, output: string)
    requires input != "-ss" && input != "-to" && startStamp != "-to"
    ensures var cmd := SplitCommand(input, startStamp, endStamp, output);
      && CommandLine.FlagValue(cmd, "-ss") == Some(startStamp)
      && CommandLine.FlagValue(cmd, "-to") == Some(endStamp)
      && cmd[4] == "-ss" && "-ss" !in cmd[..4] && cmd[6] == "-to" && "-to" !in cmd[..6]
  {
    var cmd := SplitCommand(input, startStamp, endStamp, output);
    assert "-y"[1] != "-ss"[1] && "-i"[1] != "-ss"[1];
    assert cmd[..4] == ["ffmpeg", "-y", "-i", input];
    CommandLine.FlagValueAt(cmd, "-ss", 4, startStamp);
    assert "-y"[1] != "-to"[1] && "-i"[1] != "-to"[1] && "-ss"[1] != "-to"[1];
    assert cmd[..6] == ["ffmpeg", "-y", "-i", input, "-ss", startStamp];
    CommandLine.FlagValueAt(cmd, "-to", 6, endStamp);
  }

  /** `split_scene`: the cut worked when ffmpeg exited with 0. */
  predicate SplitSucceeded(exitCode: int) {
    exitCode == 0
  }

  /** The file written for the scene numbered `index`. */
  function OutPath(outDir: string, index: nat): string {
    PathJoin(outDir, SceneDetector.SceneFileName(index, ".mp4"))
  }

  /** The output file's last path segment is `scene_NNN.mp4` for its scene. */
  lemma OutPathName(outDir: string, index: nat)
    ensures LastSegment(OutPath(outDir, index)) == SceneDetector.SceneFileName(index, ".mp4")
  {
    PathJoinLastSegment(outDir, SceneDetector.SceneFileName(index, ".mp4"));
  }

  /** A scene as `split_all` reads it from its dictionary. */
  datatype SceneRow = SceneRow(index: nat, start: real, end: real)

  /** The output file of every scene, by its index. */
  function OutPaths(outDir: string): nat -> string {
    (index: nat) => OutPath(outDir, index)
  }

  /** Reference: the files named by `path` of the scenes whose cut
      succeeded, in scene order. */
  function Succeeded(scenes: seq<SceneRow>, exits: seq<int>, path: nat -> string): seq<string>
    requires |exits| == |scenes|
  {
    if scenes == [] then []
    else
      var n := |scenes| - 1;
      Succeeded(scenes[..n], exits[..n], path)
        + (if SplitSucceeded(exits[n]) then [path(scenes[n].index)] else [])
  }

  /** The percentage after the `done`-th of `n` scenes: `int(done / n * 100)`. */
  function SplitPercent(done: nat, n: nat): (p: int)
    requires 1 <= done <= n
    ensures 0 <= p <= 100
    ensures done == n ==> p == 100
  {
    var x := (done as real / n as real) * 100.0;
    assert 0.0 <= x <= 100.0 by {
      assert done as real / n as real <= 1.0;
    }
    assert done == n ==> x == 100.0;
    Ripper.Trunc(x)
  }

  lemma SplitPercentMonotone(a: nat, b: nat, n: nat)
    requires 1 <= a <= b <= n
    ensures SplitPercent(a, n) <= SplitPercent(b, n)
  {
    assert a as real / n as real <= b as real / n as real;
    Ripper.TruncMonotone((a as real / n as real) * 100.0, (b as real / n as real) * 100.0);
  }

  /** One `on_progress(pct, scene_index)` call. */
  datatype Report = Report(percent: int, index: nat)

  /** The ffmpeg run for one scene, its times rendered by `stamp`. */
  function CommandOf(input: string, outDir: string, stamp: real -> string, scene: SceneRow): seq<string> {
    SplitCommand(input, stamp(scene.start), stamp(scene.end), OutPath(outDir, scene.index))
  }

  /** The progress report after the scene at position `k`: the share of
      scenes done so far and the scene's number. */
  function ReportAt(scenes: seq<SceneRow>, k: nat): (r: Report)
    requires k < |scenes|
    ensures r.index == scenes[k].index && 0 <= r.percent <= 100
    ensures k == |scenes| - 1 ==> r.percent == 100
  {
    Report(SplitPercent(k + 1, |scenes|), scenes[k].index)
  }

  /** `split_all`: `exits[i]` is how the i-th cut ended and `stamp` renders a time. */
  method SplitAll(input: string, scenes: seq<SceneRow>, outDir: string, exits: seq<int>, stamp: real -> string)
    returns (paths: seq<string>, commands: seq<seq<string>>, reports: seq<Report>)
    requires |exits| == |scenes|
    ensures paths == Succeeded(scenes, exits, OutPaths(outDir))
    ensures |commands| == |scenes|
    ensures forall i :: 0 <= i < |scenes| ==> commands[i] == CommandOf(input, outDir, stamp, scenes[i])
    ensures |reports| == |scenes|
    ensures forall i :: 0 <= i < |scenes| ==> reports[i] == ReportAt(scenes, i)
    ensures |scenes| > 0 ==> Last(reports).percent == 100
  {
    paths, commands, reports := [], [], [];
    var i := 0;
    while i < |scenes|
      invariant 0 <= i <= |scenes|
      invariant paths == Succeeded(scenes[..i], exits[..i], OutPaths(outDir))
      invariant CommandsFor(commands, input, outDir, stamp, scenes, i)
      invariant ReportsFor(reports, scenes, i)
    {
      var scene := scenes[i];
      var output := OutPaths(outDir)(scene.index);
      CommandsSnoc(input, outDir, stamp, scenes, commands, i);
      commands := commands + [CommandOf(input, outDir, stamp, scene)];
      SucceededSnoc(scenes, exits, OutPaths(outDir), i);
      if SplitSucceeded(exits[i]) {
        paths := paths + [output];
      }
      ReportsSnoc(scenes, reports, i);
      reports := reports + [ReportAt(scenes, i)];
      i := i + 1;
    }
    assert scenes[..i] == scenes && exits[..i] == exits;
    if |scenes| > 0 {
      assert Last(reports) == ReportAt(scenes, |scenes| - 1);
    }
  }

  /** `commands` are the ffmpeg runs of the first `n` scenes, in order. */
  predicate CommandsFor(commands: seq<seq<string>>, input: string, outDir: string, stamp: real -> string, scenes: seq<SceneRow>, n: nat)
    requires n <= |scenes|
  {
    |commands| == n && forall k :: 0 <= k < n ==> commands[k] == CommandOf(input, outDir, stamp, scenes[k])
  }

  /** `reports` are the progress reports after the first `n` scenes, in order. */
  predicate ReportsFor(reports: seq<Report>, scenes: seq<SceneRow>, n: nat)
    requires n <= |scenes|
  {
    |reports| == n && forall k :: 0 <= k < n ==> reports[k] == ReportAt(scenes, k)
  }

  /** The commands of the first `i` scenes extended by the next one. */
  lemma CommandsSnoc(input: string, outDir: string, stamp: real -> string, scenes: seq<SceneRow>, commands: seq<seq<string>>, i: nat)
    requires i < |scenes| && CommandsFor(commands, input, outDir, stamp, scenes, i)
    ensures CommandsFor(commands + [CommandOf(input, outDir, stamp, scenes[i])], input, outDir, stamp, scenes, i + 1)
  {
    var next := commands + [CommandOf(input, outDir, stamp, scenes[i])];
    forall k | 0 <= k < i
      ensures next[k] == CommandOf(input, outDir, stamp, scenes[k])
    {
      assert next[k] == commands[k];
    }
  }

  /** The reports after the first `i` scenes extended by the next one. */
  lemma ReportsSnoc(scenes: seq<SceneRow>, reports: seq<Report>, i: nat)
    requires i < |scenes| && ReportsFor(reports, scenes, i)
    ensures ReportsFor(reports + [ReportAt(scenes, i)], scenes, i + 1)
  {
  }

  /** The reference over one more scene. */
  lemma SucceededSnoc(scenes: seq<SceneRow>, exits: seq<int>, path: nat -> string, i: nat)
    requires |exits| == |scenes| && i < |scenes|
    ensures Succeeded(scenes[..i + 1], exits[..i + 1], path)
      == Succeeded(scenes[..i], exits[..i], path) + (if SplitSucceeded(exits[i]) then [path(scenes[i].index)] else [])
  {
    assert scenes[..i + 1][..i] == scenes[..i] && exits[..i + 1][..i] == exits[..i];
  }

  /** At most one file per scene; one per scene exactly when every cut
      succeeded, none when every cut failed; and every file returned is the
      file of a scene whose cut succeeded. */
  lemma {:induction false} SucceededFacts(scenes: seq<SceneRow>, exits: seq<int>, path: nat -> string)
    requires |exits| == |scenes|
    ensures |Succeeded(scenes, exits, path)| <= |scenes|
    ensures (forall k :: 0 <= k < |exits| ==> exits[k] == 0) ==>
      Succeeded(scenes, exits, path) == seq(|scenes|, k requires 0 <= k < |scenes| => path(scenes[k].index))
    ensures (forall k :: 0 <= k < |exits| ==> exits[k] != 0) ==> Succeeded(scenes, exits, path) == []
    ensures forall p :: p in Succeeded(scenes, exits, path) ==>
      exists k :: 0 <= k < |scenes| && exits[k] == 0 && p == path(scenes[k].index)
  {
    if scenes != [] {
      var n := |scenes| - 1;
      SucceededFacts(scenes[..n], exits[..n], path);
      assert forall k :: 0 <= k < n ==> scenes[..n][k] == scenes[k] && exits[..n][k] == exits[k];
    }
  }

  /** Three one-minute scenes that all cut cleanly give three files, each
      named `scene_NNN.mp4` after its scene, and three progress reports. */
  lemma SplitAllExample(outDir: string)
    ensures var scenes := [SceneRow(1, 0.0, 60.0), SceneRow(2, 60.0, 120.0), SceneRow(3, 120.0, 180.0)];
      var paths := Succeeded(scenes, [0, 0, 0], OutPaths(outDir));
      && |paths| == 3
      && (forall k :: 0 <= k < 3 ==>
            && LastSegment(paths[k]) == SceneDetector.SceneFileName(k + 1, ".mp4")
            && LastSegment(paths[k])[..6] == "scene_")
      && [ReportAt(scenes, 0), ReportAt(scenes, 1), ReportAt(scenes, 2)] == [Report(33, 1), Report(66, 2), Report(100, 3)]
  {
    var scenes := [SceneRow(1, 0.0, 60.0), SceneRow(2, 60.0, 120.0), SceneRow(3, 120.0, 180.0)];
    var paths := ThreeCleanCuts(OutPaths(outDir), scenes);
    forall k | 0 <= k < 3
      ensures LastSegment(paths[k]) == SceneDetector.SceneFileName(k + 1, ".mp4")
      ensures LastSegment(paths[k])[..6] == "scene_"
    {
      CleanCutName(outDir, k + 1);
    }
    ThreeReports(scenes);
  }

  /** Every cut of three scenes numbered 1 to 3 succeeding leaves their three files. */
  lemma ThreeCleanCuts(path: nat -> string, scenes: seq<SceneRow>) returns (paths: seq<string>)
    requires |scenes| == 3 && forall k :: 0 <= k < 3 ==> scenes[k].index == k + 1
    ensures paths == Succeeded(scenes, [0, 0, 0], path)
    ensures |paths| == 3 && forall k :: 0 <= k < 3 ==> paths[k] == path(k + 1)
  {
    var exits := [0, 0, 0];
    assert forall k :: 0 <= k < |exits| ==> exits[k] == 0;
    SucceededFacts(scenes, exits, path);
    paths := Succeeded(scenes, exits, path);
    assert paths == seq(3, k requires 0 <= k < 3 => path(scenes[k].index));
  }

  /** The file of scene `index` is named `scene_NNN.mp4`. */
  lemma CleanCutName(outDir: string, index: nat)
    ensures LastSegment(OutPath(outDir, index)) == SceneDetector.SceneFileName(index, ".mp4")
    ensures LastSegment(OutPath(outDir, index))[..6] == "scene_"
  {
    OutPathName(outDir, index);
    SceneDetector.SceneFileNameDigits(index, ".mp4");
  }

  /** Progress over three scenes reads 33, 66 and 100. */
  lemma ThreeReports(scenes: seq<SceneRow>)
    requires |scenes| == 3 && forall k :: 0 <= k < 3 ==> scenes[k].index == k + 1
    ensures [ReportAt(scenes, 0), ReportAt(scenes, 1), ReportAt(scenes, 2)] == [Report(33, 1), Report(66, 2), Report(100, 3)]
  {
    assert 33.0 <= (1.0 / 3.0) * 100.0 < 34.0;
    assert 66.0 <= (2.0 / 3.0) * 100.0 < 67.0;
  }

  /** Three scenes of which the second fails to cut give the first and
      third files, and progress reports 33, 66, 100 all the same. */
  lemma FailedCutExample(path: nat -> string)
    ensures var scenes := [SceneRow(1, 0.0, 10.0), SceneRow(2, 10.0, 20.0), SceneRow(3, 20.0, 30.0)];
      Succeeded(scenes, [0, 1, 0], path) == [path(1), path(3)]
    ensures SplitPercent(1, 3) == 33 && SplitPercent(2, 3) == 66 && SplitPercent(3, 3) == 100
  {
    var scenes := [SceneRow(1, 0.0, 10.0), SceneRow(2, 10.0, 20.0), SceneRow(3, 20.0, 30.0)];
    assert scenes[..2][..1] == scenes[..1];
    assert [0, 1, 0][..2][..1] == [0];
    assert Succeeded(scenes[..1], [0], path) == [path(1)];
    assert Succeeded(scenes[..2], [0, 1], path) == [path(1)];
    assert 33.0 <= (1.0 / 3.0) * 100.0 < 34.0;
    assert 66.0 <= (2.0 / 3.0) * 100.0 < 67.0;
  }
}
