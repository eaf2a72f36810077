/** Scene detection's own logic (backend/digitizer/scene_detector.py):
    merging scenes shorter than the minimum into their neighbours, numbering
    the survivors, choosing their thumbnail times and paths, and the progress
    reported along the way. The detector library and ffmpeg are the
    environment's: the raw cut list and the thumbnail runs are inputs.
    `on_progress` is optional in the code; the reports modelled here are the
    calls a supplied callback receives, and without one nothing is reported. */
module SceneDetector {
  import opened Wrappers
  import opened Text
  import CommandLine
  import Ripper

  /** A scene as a pair of times in seconds. */
  datatype Span = Span(start: real, end: real)

  function Duration(s: Span): real {
    s.end - s.start
  }

  const DefaultContentThreshold := 22.0
  const DefaultFadeThreshold := 12
  const DefaultMinSceneLength := 5.0

  /** Each scene ends where the next begins. */
  predicate Contiguous(xs: seq<Span>) {
    forall k :: 0 <= k < |xs| - 1 ==> xs[k].end == xs[k + 1].start
  }

  predicate NonNegative(xs: seq<Span>) {
    forall k :: 0 <= k < |xs| ==> xs[k].start <= xs[k].end
  }

  /** Non-empty spans, each ending where the next begins, from the first
      detected start to the last detected end; when there are two or more,
      none shorter than `min`. */
  predicate Covers(spans: seq<Span>, detected: seq<Span>, min: real) {
    && |spans| >= 1 && |detected| >= 1
    && Contiguous(spans)
    && spans[0].start == detected[0].start
    && Last(spans).end == Last(detected).end
    && (|spans| >= 2 ==> forall k :: 0 <= k < |spans| ==> Duration(spans[k]) >= min)
  }

  /** What `filter_short_scenes` returns, and the argument list as it leaves it. */
  datatype Filtered = Filtered(kept: seq<Span>, scenes: seq<Span>)

  /** One pass of the loop from position `i`: a short scene joins the last
      kept one; a short scene with nothing kept yet lends its start to the
      next scene in the argument list; anything else is kept. */
  function Loop(min: real, scenes: seq<Span>, i: nat, kept: seq<Span>): (r: Filtered)
    requires i <= |scenes|
    ensures |r.scenes| == |scenes|
    decreases |scenes| - i
  {
    if i == |scenes| then Filtered(kept, scenes)
    else
      var cur := scenes[i];
      if Duration(cur) < min && |kept| > 0 then
        Loop(min, scenes, i + 1, kept[..|kept| - 1] + [Span(Last(kept).start, cur.end)])
      else if Duration(cur) < min && i + 1 < |scenes| then
        Loop(min, scenes[i + 1 := Span(cur.start, scenes[i + 1].end)], i + 1, kept)
      else
        Loop(min, scenes, i + 1, kept + [cur])
  }

  /** `filter_short_scenes` with minimum length `min`. */
  function FilterShortScenes(min: real, scenes: seq<Span>): (r: Filtered)
    ensures |scenes| <= 1 ==> r == Filtered(scenes, scenes)
    ensures |r.scenes| == |scenes|
  {
    if |scenes| <= 1 then Filtered(scenes, scenes) else Loop(min, scenes, 0, [])
  }

  /** When no scene is short the loop keeps every scene as it is. */
  lemma {:induction false} AllLongKept(min: real, scenes: seq<Span>, i: nat, kept: seq<Span>)
    requires i <= |scenes|
    requires forall k :: i <= k < |scenes| ==> Duration(scenes[k]) >= min
    ensures Loop(min, scenes, i, kept) == Filtered(kept + scenes[i..], scenes)
    decreases |scenes| - i
  {
    if i < |scenes| {
      AllLongKept(min, scenes, i + 1, kept + [scenes[i]]);
      assert kept + [scenes[i]] + scenes[i + 1..] == kept + scenes[i..];
    } else {
      assert kept + scenes[i..] == kept;
    }
  }

  /** A list whose scenes all reach the minimum comes back unchanged. */
  lemma NothingShortNothingChanged(min: real, scenes: seq<Span>)
    requires forall k :: 0 <= k < |scenes| ==> Duration(scenes[k]) >= min
    ensures FilterShortScenes(min, scenes) == Filtered(scenes, scenes)
  {
    if |scenes| > 1 {
      AllLongKept(min, scenes, 0, []);
      assert [] + scenes[0..] == scenes;
    }
  }

  /** The loop's state at position `i` over an originally contiguous list
      `orig` of at least two scenes: what has been kept is contiguous, runs
      from the first start to the end of scene `i - 1`, and every kept scene
      reaches the minimum except a sole short last scene. Scenes after `i`
      are untouched; scene `i` keeps its end, and while nothing is kept a
      forward merge has given it the first start. */
  ghost predicate LoopState(min: real, orig: seq<Span>, scenes: seq<Span>, i: nat, kept: seq<Span>) {
    && 2 <= |orig| == |scenes| && i <= |orig|
    && (forall k :: i < k < |orig| ==> scenes[k] == orig[k])
    && (i < |orig| ==> scenes[i].end == orig[i].end)
    && (i < |orig| && kept == [] ==> scenes[i].start == orig[0].start)
    && (i < |orig| && kept != [] ==> scenes[i] == orig[i])
    && (i == |orig| ==> kept != [])
    && |kept| <= i
    && (kept != [] ==> kept[0].start == orig[0].start && Last(kept).end == orig[i - 1].end)
    && Contiguous(kept)
    && (forall k :: 0 <= k < |kept| ==> Duration(kept[k]) >= min || (|kept| == 1 && i == |orig|))
  }

  /** One step of the loop keeps its state. */
  lemma LoopStep(min: real, orig: seq<Span>, scenes: seq<Span>, i: nat, kept: seq<Span>)
    requires LoopState(min, orig, scenes, i, kept) && i < |orig|
    requires Contiguous(orig) && NonNegative(orig)
    ensures var cur := scenes[i];
      if Duration(cur) < min && |kept| > 0 then
        LoopState(min, orig, scenes, i + 1, kept[..|kept| - 1] + [Span(Last(kept).start, cur.end)])
      else if Duration(cur) < min && i + 1 < |scenes| then
        LoopState(min, orig, scenes[i + 1 := Span(cur.start, scenes[i + 1].end)], i + 1, kept)
      else
        LoopState(min, orig, scenes, i + 1, kept + [cur])
  {
    var cur := scenes[i];
    if Duration(cur) < min && |kept| > 0 {
      var next := kept[..|kept| - 1] + [Span(Last(kept).start, cur.end)];
      assert orig[i - 1].end == orig[i].start;
      assert Last(kept).end <= cur.end;
      assert forall k :: 0 <= k < |kept| - 1 ==> next[k] == kept[k];
      if |kept| == 1 {
        assert next[0].start == kept[0].start;
      }
    } else if Duration(cur) < min && i + 1 < |scenes| {
      assert kept == [];
    } else {
      var next := kept + [cur];
      if kept != [] {
        assert orig[i - 1].end == orig[i].start;
      }
      assert Last(next) == cur;
    }
  }

  /** The loop run to the end from a state satisfying `LoopState`. */
  lemma {:induction false} LoopKeepsState(min: real, orig: seq<Span>, scenes: seq<Span>, i: nat, kept: seq<Span>)
    requires LoopState(min, orig, scenes, i, kept)
    requires Contiguous(orig) && NonNegative(orig)
    ensures LoopState(min, orig, Loop(min, scenes, i, kept).scenes, |orig|, Loop(min, scenes, i, kept).kept)
    decreases |orig| - i
  {
    if i < |orig| {
      LoopStep(min, orig, scenes, i, kept);
      var cur := scenes[i];
      if Duration(cur) < min && |kept| > 0 {
        LoopKeepsState(min, orig, scenes, i + 1, kept[..|kept| - 1] + [Span(Last(kept).start, cur.end)]);
      } else if Duration(cur) < min && i + 1 < |scenes| {
        LoopKeepsState(min, orig, scenes[i + 1 := Span(cur.start, scenes[i + 1].end)], i + 1, kept);
      } else {
        LoopKeepsState(min, orig, scenes, i + 1, kept + [cur]);
      }
    }
  }

  /** Whatever the input, the loop keeps at most one scene per scene it
      reads, and once a scene has been read or kept something stays kept. */
  lemma {:induction false} LoopSize(min: real, scenes: seq<Span>, i: nat, kept: seq<Span>)
    requires i <= |scenes|
    ensures |Loop(min, scenes, i, kept).kept| <= |kept| + |scenes| - i
    ensures i < |scenes| || kept != [] ==> Loop(min, scenes, i, kept).kept != []
    decreases |scenes| - i
  {
    if i < |scenes| {
      var cur := scenes[i];
      if Duration(cur) < min && |kept| > 0 {
        LoopSize(min, scenes, i + 1, kept[..|kept| - 1] + [Span(Last(kept).start, cur.end)]);
      } else if Duration(cur) < min && i + 1 < |scenes| {
        LoopSize(min, scenes[i + 1 := Span(cur.start, scenes[i + 1].end)], i + 1, kept);
      } else {
        LoopSize(min, scenes, i + 1, kept + [cur]);
      }
    }
  }

  /** The kept scenes of a non-empty list: at least one and no more than
      the input holds; for contiguous input, contiguous over the same span
      and, when two or more are kept, none shorter than the minimum. */
  lemma KeptFacts(min: real, scenes: seq<Span>)
    requires |scenes| >= 1
    ensures var r := FilterShortScenes(min, scenes).kept;
      && 1 <= |r| <= |scenes|
      && (Contiguous(scenes) && NonNegative(scenes) ==> Covers(r, scenes, min))
  {
    if |scenes| >= 2 {
      LoopSize(min, scenes, 0, []);
      if Contiguous(scenes) && NonNegative(scenes) {
        FilterContiguous(min, scenes);
      }
    }
  }

  /** For a contiguous list of at least two scenes with no negative scene:
      the result is non-empty, contiguous, no longer than the input, runs
      from the first start to the last end, and when it holds two or more
      scenes every one of them reaches the minimum. */
  lemma FilterContiguous(min: real, scenes: seq<Span>)
    requires |scenes| >= 2 && Contiguous(scenes) && NonNegative(scenes)
    ensures var r := FilterShortScenes(min, scenes).kept;
      && 1 <= |r| <= |scenes|
      && Contiguous(r)
      && r[0].start == scenes[0].start
      && Last(r).end == Last(scenes).end
      && (|r| >= 2 ==> forall k :: 0 <= k < |r| ==> Duration(r[k]) >= min)
  {
    assert LoopState(min, scenes, scenes, 0, []);
    LoopKeepsState(min, scenes, scenes, 0, []);
  }

  /** The loop keeps every end in the argument list, and a start changes
      only to the first scene's start (a forward merge). */
  lemma {:induction false} LoopMutation(min: real, scenes: seq<Span>, i: nat, kept: seq<Span>, orig: seq<Span>)
    requires i <= |scenes| == |orig| && |orig| >= 1
    requires forall k :: 0 <= k < |orig| ==> scenes[k].end == orig[k].end
    requires forall k :: 0 <= k < |orig| ==> scenes[k].start == orig[k].start || scenes[k].start == orig[0].start
    requires i < |scenes| && kept == [] ==> scenes[i].start == orig[0].start
    ensures var out := Loop(min, scenes, i, kept).scenes;
      forall k :: 0 <= k < |orig| ==> out[k].end == orig[k].end && (out[k].start == orig[k].start || out[k].start == orig[0].start)
    decreases |scenes| - i
  {
    if i < |scenes| {
      var cur := scenes[i];
      if Duration(cur) < min && |kept| > 0 {
        LoopMutation(min, scenes, i + 1, kept[..|kept| - 1] + [Span(Last(kept).start, cur.end)], orig);
      } else if Duration(cur) < min && i + 1 < |scenes| {
        LoopMutation(min, scenes[i + 1 := Span(cur.start, scenes[i + 1].end)], i + 1, kept, orig);
      } else {
        LoopMutation(min, scenes, i + 1, kept + [cur], orig);
      }
    }
  }

  /** `filter_short_scenes` leaves every end of its argument in place and
      changes a start only to the first scene's start. */
  lemma ArgumentMutation(min: real, scenes: seq<Span>)
    ensures var out := FilterShortScenes(min, scenes).scenes;
      forall k :: 0 <= k < |scenes| ==>
        (out[k].end == scenes[k].end && (out[k].start == scenes[k].start || out[k].start == scenes[0].start))
  {
    if |scenes| > 1 {
      LoopMutation(min, scenes, 0, [], scenes);
    }
  }

  /** The scenes of the detector's test: the two short ones fold into the
      scenes before them. */
  lemma FilterExample()
    ensures FilterShortScenes(5.0, [Span(0.0, 45.0), Span(45.0, 46.5), Span(46.5, 120.0), Span(120.0, 121.0), Span(121.0, 200.0)]).kept
      == [Span(0.0, 46.5), Span(46.5, 121.0), Span(121.0, 200.0)]
  {
    var s := [Span(0.0, 45.0), Span(45.0, 46.5), Span(46.5, 120.0), Span(120.0, 121.0), Span(121.0, 200.0)];
    assert Loop(5.0, s, 5, [Span(0.0, 46.5), Span(46.5, 121.0), Span(121.0, 200.0)]).kept == [Span(0.0, 46.5), Span(46.5, 121.0), Span(121.0, 200.0)];
    assert Loop(5.0, s, 4, [Span(0.0, 46.5), Span(46.5, 121.0)]).kept == [Span(0.0, 46.5), Span(46.5, 121.0), Span(121.0, 200.0)];
    assert Loop(5.0, s, 3, [Span(0.0, 46.5), Span(46.5, 120.0)]).kept == [Span(0.0, 46.5), Span(46.5, 121.0), Span(121.0, 200.0)];
    assert Loop(5.0, s, 2, [Span(0.0, 46.5)]).kept == [Span(0.0, 46.5), Span(46.5, 121.0), Span(121.0, 200.0)];
    assert Loop(5.0, s, 1, [Span(0.0, 45.0)]).kept == [Span(0.0, 46.5), Span(46.5, 121.0), Span(121.0, 200.0)];
  }

  /** A short first scene is carried into the next one through the argument list. */
  lemma ForwardMergeExample()
    ensures FilterShortScenes(5.0, [Span(0.0, 1.0), Span(1.0, 60.0)])
      == Filtered([Span(0.0, 60.0)], [Span(0.0, 1.0), Span(0.0, 60.0)])
  {
    var s := [Span(0.0, 1.0), Span(1.0, 60.0)];
    var s1 := s[1 := Span(0.0, 60.0)];
    assert Loop(5.0, s1, 2, [Span(0.0, 60.0)]) == Filtered([Span(0.0, 60.0)], s1);
    assert Loop(5.0, s1, 1, []) == Filtered([Span(0.0, 60.0)], s1);
  }

  /** The detector's cut list, or the whole video as one scene when it found no cut. */
  function DetectedScenes(cuts: seq<Span>, videoSeconds: real): (r: seq<Span>)
    ensures |r| >= 1
    ensures cuts != [] ==> r == cuts
    ensures cuts == [] ==> r == [Span(0.0, videoSeconds)]
  {
    if cuts == [] then [Span(0.0, videoSeconds)] else cuts
  }

  /** `build_thumbnail_command`; `stamp` is the timestamp as `:.3f` renders it. */
  function ThumbnailCommand(video: string, stamp: string, output: string): (cmd: seq<string>)
    ensures |cmd| >= 1 && cmd[0] == "ffmpeg" && Last(cmd) == output
  {
    ["ffmpeg", "-y", "-ss", stamp, "-i", video, "-vframes", "1", "-q:v", "2", output]
  }

  /** ffmpeg seeks before opening the input and writes a single frame. */
  lemma ThumbnailCommandOptions(video: string, stamp: string, output: string)
    requires stamp != "-i" && stamp != "-vframes" && video != "-vframes"
    ensures CommandLine.FlagValue(ThumbnailCommand(video, stamp, output), "-ss") == Some(stamp)
    ensures CommandLine.FlagValue(ThumbnailCommand(video, stamp, output), "-i") == Some(video)
    ensures CommandLine.FlagValue(ThumbnailCommand(video, stamp, output), "-vframes") == Some("1")
  {
    var cmd := ThumbnailCommand(video, stamp, output);
    assert cmd[..2] == ["ffmpeg", "-y"];
    CommandLine.FlagValueAt(cmd, "-ss", 2, stamp);
    assert cmd[..4] == ["ffmpeg", "-y", "-ss", stamp];
    CommandLine.FlagValueAt(cmd, "-i", 4, video);
    assert cmd[..6] == ["ffmpeg", "-y", "-ss", stamp, "-i", video];
    CommandLine.FlagValueAt(cmd, "-vframes", 6, "1");
  }

  /** A scene as `analyze` returns it. Its `id` is a freshly drawn uuid and
      its `duration` is `round(end - start, 3)`; both the draws and Python's
      rounding are parameters of `analyze`. */
  datatype Scene = Scene(id: string, index: nat, start: real, end: real, duration: real,
                         thumbnailPath: string, thumbnailTime: real)

  /** The file name `scene_NNN` + `ext` for the scene numbered `index`,
      the number rendered as `{index:03d}` renders it. */
  function SceneFileName(index: nat, ext: string): (name: string)
    requires '/' !in ext
    ensures |name| > 0 && '/' !in name
  {
    var digits := ZeroPad(index, 3);
    NoSlashAround("scene_", digits, ext);
    "scene_" + digits + ext
  }

  /** The number in a scene file name is the scene's index zero-padded to
      three digits, exactly as `{index:03d}` writes it. */
  lemma SceneFileNameDigits(index: nat, ext: string)
    requires '/' !in ext
    ensures var name := SceneFileName(index, ext);
      && |name| >= 6 + 3 + |ext|
      && name[..6] == "scene_" && name[|name| - |ext|..] == ext
      && ZeroPadded(name[6..|name| - |ext|], index, 3)
  {
    var digits := ZeroPad(index, 3);
    var name := "scene_" + digits + ext;
    assert name[6..|name| - |ext|] == digits;
    assert name[..6] == "scene_";
  }

  /** The thumbnail's file name for the scene numbered `index`. */
  function ThumbnailName(index: nat): (name: string)
    ensures |name| > 0 && '/' !in name
  {
    SceneFileName(index, ".jpg")
  }

  lemma NoSlashAround(prefix: string, digits: string, suffix: string)
    requires '/' !in prefix && '/' !in suffix && AllDigits(digits)
    ensures '/' !in prefix + digits + suffix
  {
    assert '/' !in digits;
    assert '/' !in prefix + digits;
  }

  /** Half a second into the scene when that is still inside it, else its start. */
  function ThumbnailTime(s: Span): (t: real)
    ensures s.start <= t <= s.start + 0.5
    ensures t == s.start || t < s.end
  {
    if s.start + 0.5 < s.end then s.start + 0.5 else s.start
  }

  /** The scenes `analyze` builds from the kept spans, numbered from 1; the
      k-th takes the k-th id drawn. */
  function Number(kept: seq<Span>, thumbDir: string, ids: nat -> string, round3: real -> real): (r: seq<Scene>)
    ensures |r| == |kept|
    ensures forall k :: 0 <= k < |r| ==>
      && r[k].start == kept[k].start && r[k].end == kept[k].end
      && NumberedAs(r[k], k, thumbDir, ids, round3)
  {
    seq(|kept|, k requires 0 <= k < |kept| => SceneAt(kept[k], k, thumbDir, ids, round3))
  }

  /** The scene `analyze` builds from the kept span at position k. */
  function SceneAt(span: Span, k: nat, thumbDir: string, ids: nat -> string, round3: real -> real): (s: Scene)
    ensures s.start == span.start && s.end == span.end
    ensures NumberedAs(s, k, thumbDir, ids, round3)
  {
    var s := Scene(ids(k), k + 1, span.start, span.end, round3(Duration(span)),
                   PathJoin(thumbDir, ThumbnailName(k + 1)), ThumbnailTime(span));
    assert SpanOf(s) == span;
    s
  }

  /** The indices run 1..n without gaps or repeats, and a thumbnail's last
      path segment is its own file name, which names the scene's index. */
  lemma NumberingFacts(kept: seq<Span>, thumbDir: string, ids: nat -> string, round3: real -> real)
    ensures forall k :: 0 <= k < |kept| ==> Number(kept, thumbDir, ids, round3)[k].index == k + 1
    ensures forall j, k :: 0 <= j < k < |kept| ==> Number(kept, thumbDir, ids, round3)[j].index < Number(kept, thumbDir, ids, round3)[k].index
    ensures forall k :: 0 <= k < |kept| ==>
      LastSegment(Number(kept, thumbDir, ids, round3)[k].thumbnailPath) == ThumbnailName(k + 1)
  {
    forall k | 0 <= k < |kept|
      ensures LastSegment(Number(kept, thumbDir, ids, round3)[k].thumbnailPath) == ThumbnailName(k + 1)
    {
      PathJoinLastSegment(thumbDir, ThumbnailName(k + 1));
    }
  }

  /** The progress `analyze` reports for `n` kept scenes: 0 before
      detection, 50 after it, then one value per scene. */
  function AnalyzeProgress(n: nat): (r: seq<int>)
    ensures |r| == n + 2 && r[0] == 0 && r[1] == 50
    ensures forall k :: 2 <= k < |r| ==> 50 <= r[k] <= 100
    ensures n > 0 ==> Last(r) == 100
  {
    [0, 50] + seq(n, k requires 0 <= k < n => SceneProgress(k + 1, n))
  }

  /** `min(50 + int(index / n * 50), 100)` after the scene numbered `index`. */
  function SceneProgress(index: nat, n: nat): (p: int)
    requires 1 <= index <= n
    ensures 50 <= p <= 100
    ensures index == n ==> p == 100
  {
    var x := (index as real / n as real) * 50.0;
    assert 0.0 <= x <= 50.0 by {
      assert index as real / n as real <= 1.0;
    }
    assert index == n ==> x == 50.0;
    var pct := 50 + Ripper.Trunc(x);
    if pct <= 100 then pct else 100
  }

  /** The reported progress never goes backwards. */
  lemma AnalyzeProgressNondecreasing(n: nat)
    ensures forall j, k :: 0 <= j <= k < n + 2 ==> AnalyzeProgress(n)[j] <= AnalyzeProgress(n)[k]
  {
    var r := AnalyzeProgress(n);
    forall j, k | 2 <= j <= k < n + 2
      ensures r[j] <= r[k]
    {
      assert r[j] == SceneProgress(j - 1, n) && r[k] == SceneProgress(k - 1, n);
      SceneProgressMonotone(j - 1, k - 1, n);
    }
  }

  lemma SceneProgressMonotone(a: nat, b: nat, n: nat)
    requires 1 <= a <= b <= n
    ensures SceneProgress(a, n) <= SceneProgress(b, n)
  {
    assert a as real / n as real <= b as real / n as real;
    Ripper.TruncMonotone((a as real / n as real) * 50.0, (b as real / n as real) * 50.0);
  }

  /** What `analyze` returns and reports, given the detector's cut list. */
  datatype Analysis = Analysis(scenes: seq<Scene>, progress: seq<int>)

  /** The times of a scene. */
  function SpanOf(s: Scene): Span {
    Span(s.start, s.end)
  }

  function SpansOf(scenes: seq<Scene>): seq<Span> {
    seq(|scenes|, k requires 0 <= k < |scenes| => SpanOf(scenes[k]))
  }

  /** Scenes numbered 1..n in list order, each with the thumbnail file
      named after its number, its thumbnail time, the id drawn for it and
      its rounded length. */
  predicate NumberedInOrder(scenes: seq<Scene>, thumbDir: string, ids: nat -> string, round3: real -> real) {
    forall k :: 0 <= k < |scenes| ==> NumberedAs(scenes[k], k, thumbDir, ids, round3)
  }

  /** The scene at position k is numbered k+1, with the thumbnail named
      after that number, its thumbnail time, the k-th id and its rounded length. */
  predicate NumberedAs(s: Scene, k: nat, thumbDir: string, ids: nat -> string, round3: real -> real) {
    && s.index == k + 1
    && s.thumbnailPath == PathJoin(thumbDir, ThumbnailName(k + 1))
    && s.thumbnailTime == ThumbnailTime(SpanOf(s))
    && s.id == ids(k)
    && s.duration == round3(s.end - s.start)
  }

  /** Reports that start at 0, then 50, end at 100 and never go back. */
  predicate RisingTo100(progress: seq<int>) {
    && |progress| >= 3
    && progress[0] == 0 && progress[1] == 50 && Last(progress) == 100
    && forall j, k :: 0 <= j <= k < |progress| ==> progress[j] <= progress[k]
  }

  /** Numbering keeps each scene's times and gives it its number and thumbnail. */
  lemma NumberInOrder(kept: seq<Span>, thumbDir: string, ids: nat -> string, round3: real -> real)
    ensures SpansOf(Number(kept, thumbDir, ids, round3)) == kept
    ensures NumberedInOrder(Number(kept, thumbDir, ids, round3), thumbDir, ids, round3)
  {
    NumberSpans(kept, thumbDir, ids, round3);
  }

  lemma NumberSpans(kept: seq<Span>, thumbDir: string, ids: nat -> string, round3: real -> real)
    ensures SpansOf(Number(kept, thumbDir, ids, round3)) == kept
  {
    var spans := SpansOf(Number(kept, thumbDir, ids, round3));
    forall k | 0 <= k < |kept|
      ensures spans[k] == kept[k]
    {
    }
  }

  /** The scenes numbered from a detection: as many as were kept, numbered
      1..n with their thumbnails, and for a contiguous detection covering it. */
  lemma NumberedKept(min: real, detected: seq<Span>, thumbDir: string, ids: nat -> string, round3: real -> real)
    requires |detected| >= 1
    ensures var scenes := Number(FilterShortScenes(min, detected).kept, thumbDir, ids, round3);
      && 1 <= |scenes| <= |detected|
      && NumberedInOrder(scenes, thumbDir, ids, round3)
      && (Contiguous(detected) && NonNegative(detected) ==> Covers(SpansOf(scenes), detected, min))
  {
    var kept := FilterShortScenes(min, detected).kept;
    KeptFacts(min, detected);
    NumberInOrder(kept, thumbDir, ids, round3);
  }

  /** The progress of `analyze` for at least one scene rises from 0 to 100. */
  lemma ProgressRises(n: nat)
    requires n >= 1
    ensures RisingTo100(AnalyzeProgress(n))
  {
    AnalyzeProgressNondecreasing(n);
  }

  /** `analyze`: at least one scene and no more than were detected, numbered
      1..n in order with their thumbnails, ids and rounded lengths; one
      progress report before
      detection (0), one after it (50) and one per scene, never going back
      and ending at 100. For a contiguous detection the scenes are contiguous
      and cover it from its first start to its last end, and when there are
      two or more none is shorter than the minimum. */
  function Analyze(min: real, cuts: seq<Span>, videoSeconds: real, thumbDir: string, ids: nat -> string, round3: real -> real): (r: Analysis)
    ensures 1 <= |r.scenes| <= |DetectedScenes(cuts, videoSeconds)|
    ensures NumberedInOrder(r.scenes, thumbDir, ids, round3)
    ensures |r.progress| == |r.scenes| + 2 && RisingTo100(r.progress)
    ensures Contiguous(DetectedScenes(cuts, videoSeconds)) && NonNegative(DetectedScenes(cuts, videoSeconds)) ==>
      Covers(SpansOf(r.scenes), DetectedScenes(cuts, videoSeconds), min)
  {
    var detected := DetectedScenes(cuts, videoSeconds);
    var kept := FilterShortScenes(min, detected).kept;
    NumberedKept(min, detected, thumbDir, ids, round3);
    ProgressRises(|kept|);
    Analysis(Number(kept, thumbDir, ids, round3), AnalyzeProgress(|kept|))
  }

  /** The scenes of `analyze` carry exactly the times `filter_short_scenes`
      kept from the detection, in the same order. */
  lemma AnalyzeKeepsFiltered(min: real, cuts: seq<Span>, videoSeconds: real, thumbDir: string, ids: nat -> string, round3: real -> real)
    ensures SpansOf(Analyze(min, cuts, videoSeconds, thumbDir, ids, round3).scenes)
      == FilterShortScenes(min, DetectedScenes(cuts, videoSeconds)).kept
  {
    NumberInOrder(FilterShortScenes(min, DetectedScenes(cuts, videoSeconds)).kept, thumbDir, ids, round3);
  }

  /** A video in which the detector finds no cut is one scene, numbered 1,
      spanning the whole video, and the progress runs 0, 50, 100. */
  lemma AnalyzeNoCuts(min: real, videoSeconds: real, thumbDir: string, ids: nat -> string, round3: real -> real)
    ensures var a := Analyze(min, [], videoSeconds, thumbDir, ids, round3);
      && |a.scenes| == 1
      && a.scenes[0].index == 1
      && a.scenes[0].start == 0.0 && a.scenes[0].end == videoSeconds
      && a.progress == [0, 50, 100]
  {
    var whole := [Span(0.0, videoSeconds)];
    assert FilterShortScenes(min, DetectedScenes([], videoSeconds)).kept == whole;
    var a := Analyze(min, [], videoSeconds, thumbDir, ids, round3);
    assert a.scenes == Number(whole, thumbDir, ids, round3);
    assert a.progress == AnalyzeProgress(1);
    assert AnalyzeProgress(1) == [0, 50, 100];
  }
}
