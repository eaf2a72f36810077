/** The scene timeline: a bar of one segment per scene, with widths in
    percent of the video's total duration, a cut marker at the start of
    every scene after the first, and a placeholder when there is nothing to
    draw. Hover handling and timestamp formatting are not part of the model. */
module SceneTimeline {
  import opened Wrappers
  import SceneCard

  /** The number of segment colours; scene `i` takes colour `i mod 6`. */
  const ColourCount: nat := 6

  /** The share of the bar, in percent, below which a segment's scene
      number is not drawn. */
  const LabelMinWidth: real := 6.0

  /** One drawn segment: its width in percent, its colour index, the scene
      number drawn inside it (if any) and whether it is the selected one. */
  datatype Segment = Segment(widthPct: real, colour: nat, caption: Option<int>, selected: bool)

  datatype Timeline =
    | Placeholder
    | Bar(segments: seq<Segment>, cuts: seq<real>)

  /** The width of a scene's segment, in percent of the total duration. */
  function Width(s: SceneCard.Scene, total: real): real
    requires total != 0.0
  {
    (s.endTime - s.startTime) / total * 100.0
  }

  function SegmentOf(s: SceneCard.Scene, i: nat, total: real, selected: Option<nat>): (g: Segment)
    requires total != 0.0
    ensures g.widthPct == Width(s, total)
    ensures g.colour < ColourCount
    ensures g.caption.Some? <==> g.widthPct > LabelMinWidth
    ensures g.caption.Some? ==> g.caption.value == s.sceneIndex
    ensures g.selected <==> selected == Some(i)
  {
    var w := Width(s, total);
    Segment(w, i % ColourCount, if w > LabelMinWidth then Some(s.sceneIndex) else None, selected == Some(i))
  }

  /** The position of a cut marker, in percent from the left of the bar. */
  function CutAt(s: SceneCard.Scene, total: real): real
    requires total != 0.0
  {
    s.startTime / total * 100.0
  }

  /** The timeline drawn for `scenes` of a video lasting `total` seconds. */
  function Render(scenes: seq<SceneCard.Scene>, total: real, selected: Option<nat>): (t: Timeline)
    ensures t.Placeholder? <==> total == 0.0 || scenes == []
    ensures t.Bar? ==> |t.segments| == |scenes| && |t.cuts| == |scenes| - 1
  {
    if total == 0.0 || scenes == [] then Placeholder
    else
      Bar(seq(|scenes|, i requires 0 <= i < |scenes| => SegmentOf(scenes[i], i, total, selected)),
          seq(|scenes| - 1, i requires 0 <= i < |scenes| - 1 => CutAt(scenes[i + 1], total)))
  }

  /** Scenes that follow each other without gap or overlap, from 0 to `total`. */
  predicate Tiles(scenes: seq<SceneCard.Scene>, total: real) {
    && |scenes| >= 1
    && scenes[0].startTime == 0.0
    && scenes[|scenes| - 1].endTime == total
    && Chained(scenes)
  }

  predicate Chained(scenes: seq<SceneCard.Scene>) {
    forall i :: 0 <= i < |scenes| - 1 ==> scenes[i].endTime == scenes[i + 1].startTime
  }

  function Sum(xs: seq<real>): real {
    if xs == [] then 0.0 else Sum(xs[..|xs| - 1]) + xs[|xs| - 1]
  }

  function Widths(t: Timeline): seq<real>
    requires t.Bar?
  {
    seq(|t.segments|, i requires 0 <= i < |t.segments| => t.segments[i].widthPct)
  }

  lemma AddScaled(a: real, b: real, total: real)
    requires total != 0.0
    ensures a / total * 100.0 + b / total * 100.0 == (a + b) / total * 100.0
  {
    assert a / total + b / total == (a + b) / total;
  }

  /** The first `k` segments of chained scenes together span from the first
      scene's start to the `k`-th scene's end. */
  lemma {:induction false} Telescope(scenes: seq<SceneCard.Scene>, total: real, selected: Option<nat>, k: nat)
    requires total != 0.0 && Chained(scenes) && 1 <= k <= |scenes|
    ensures Sum(Widths(Render(scenes, total, selected))[..k])
      == (scenes[k - 1].endTime - scenes[0].startTime) / total * 100.0
  {
    var ws := Widths(Render(scenes, total, selected));
    assert ws[k - 1] == Width(scenes[k - 1], total);
    assert ws[..k][..k - 1] == ws[..k - 1];
    if k == 1 {
      assert ws[..k - 1] == [];
    } else {
      Telescope(scenes, total, selected, k - 1);
      assert scenes[k - 2].endTime == scenes[k - 1].startTime;
      AddScaled(scenes[k - 2].endTime - scenes[0].startTime, scenes[k - 1].endTime - scenes[k - 1].startTime, total);
    }
  }

  /** For scenes that tile the whole video, the segments fill the bar:
      their widths add up to 100 percent. */
  lemma WidthsFillBar(scenes: seq<SceneCard.Scene>, total: real, selected: Option<nat>)
    requires total != 0.0 && Tiles(scenes, total)
    ensures Render(scenes, total, selected).Bar?
    ensures Sum(Widths(Render(scenes, total, selected))) == 100.0
  {
    var ws := Widths(Render(scenes, total, selected));
    Telescope(scenes, total, selected, |scenes|);
    assert ws[..|scenes|] == ws;
    assert total / total == 1.0;
  }

  /** For chained scenes, the cut marker before scene `i + 1` sits exactly
      at the right edge of segment `i`, measured from the start of the bar. */
  lemma CutsAtSegmentEdges(scenes: seq<SceneCard.Scene>, total: real, selected: Option<nat>, i: nat)
    requires total != 0.0 && Tiles(scenes, total) && i < |scenes| - 1
    ensures var t := Render(scenes, total, selected);
      t.Bar? && t.cuts[i] == Sum(Widths(t)[..i + 1])
  {
    Telescope(scenes, total, selected, i + 1);
  }

  /** Neighbouring segments never share a colour, and at most one segment
      is drawn as selected: the one whose position is the selected index. */
  lemma ColoursAndSelection(scenes: seq<SceneCard.Scene>, total: real, selected: Option<nat>)
    requires Render(scenes, total, selected).Bar?
    ensures var gs := Render(scenes, total, selected).segments;
      && (forall i :: 0 <= i < |gs| - 1 ==> gs[i].colour != gs[i + 1].colour)
      && (forall i, j :: 0 <= i < j < |gs| && gs[i].selected ==> !gs[j].selected)
      && (forall i :: 0 <= i < |gs| ==> (gs[i].selected <==> selected == Some(i)))
  {
    var gs := Render(scenes, total, selected).segments;
    forall i | 0 <= i < |gs| - 1
      ensures gs[i].colour != gs[i + 1].colour
    {
      assert gs[i].colour == i % ColourCount && gs[i + 1].colour == (i + 1) % ColourCount;
    }
  }
}
