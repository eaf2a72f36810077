/** One scene of a split job in the scene editor: its thumbnail link, the
    inline editor for adjusting the scene's start and end, and whether it may
    be deleted. Rendering a number into the text field (`String(x)`) and
    reading it back (`parseFloat`, with NaN as `None`) are parameters. */
module SceneCard {
  import opened Wrappers
  import opened Text
  import ApiClient

  /** The fields of a scene the card reads. */
  datatype Scene = Scene(jobId: string, sceneIndex: int, startTime: real, endTime: real,
                         thumbnailPath: Option<string>)

  /** The card's local state: whether the editor is open and the text of
      its two fields. */
  datatype Editor = Editor(editing: bool, editStart: string, editEnd: string)

  /** What a press of Save does: the next editor state and the times passed
      to `onAdjust`, if it was called. */
  datatype Saved = Saved(editor: Editor, adjusted: Option<(real, real)>)

  /** The state a freshly mounted card starts in. */
  function Mount(scene: Scene, show: real -> string): (e: Editor)
    ensures !e.editing
  {
    Editor(false, show(scene.startTime), show(scene.endTime))
  }

  /** Typing into one of the fields. */
  function TypeStart(e: Editor, text: string): Editor {
    e.(editStart := text)
  }

  function TypeEnd(e: Editor, text: string): Editor {
    e.(editEnd := text)
  }

  /** Pressing Adjust: the fields are seeded from the scene's current times
      and the editor opens. */
  function OpenAdjust(e: Editor, scene: Scene, show: real -> string): (r: Editor)
    ensures r.editing
    ensures r.editStart == Mount(scene, show).editStart && r.editEnd == Mount(scene, show).editEnd
  {
    Editor(true, show(scene.startTime), show(scene.endTime))
  }

  /** Pressing Save: `onAdjust(start, end)` is called and the editor closes
      exactly when both fields parse as numbers and start < end; otherwise
      nothing is called and the editor is left as it is. */
  function SaveAdjust(e: Editor, parse: string -> Option<real>): (r: Saved)
    ensures r.adjusted.Some? <==>
      (parse(e.editStart).Some? && parse(e.editEnd).Some? && parse(e.editStart).value < parse(e.editEnd).value)
    ensures r.adjusted.Some? ==>
      (r.adjusted.value == (parse(e.editStart).value, parse(e.editEnd).value)
       && r.editor == e.(editing := false))
    ensures r.adjusted.None? ==> r.editor == e
  {
    var start, end := parse(e.editStart), parse(e.editEnd);
    if start.Some? && end.Some? && start.value < end.value then
      Saved(e.(editing := false), Some((start.value, end.value)))
    else Saved(e, None)
  }

  /** Pressing Cancel: both fields go back to the scene's current times and
      the editor closes. */
  function CancelEdit(e: Editor, scene: Scene, show: real -> string): (r: Editor)
    ensures r == Mount(scene, show)
  {
    Editor(false, show(scene.startTime), show(scene.endTime))
  }

  /** A keystroke in the editor: text typed into the start or end field. */
  datatype Keystroke = IntoStart(text: string) | IntoEnd(text: string)

  function Typed(e: Editor, keys: seq<Keystroke>): (r: Editor)
    ensures r.editing == e.editing
    decreases |keys|
  {
    if keys == [] then e
    else
      var e' := match keys[0]
        case IntoStart(t) => TypeStart(e, t)
        case IntoEnd(t) => TypeEnd(e, t);
      Typed(e', keys[1..])
  }

  /** Whatever was typed after opening the editor, Cancel leaves the card as
      it was when mounted, and reopening shows the scene's times again. */
  lemma CancelDiscardsTyping(e: Editor, scene: Scene, show: real -> string, keys: seq<Keystroke>)
    ensures var typed := Typed(OpenAdjust(e, scene, show), keys);
      && typed.editing
      && CancelEdit(typed, scene, show) == Mount(scene, show)
      && OpenAdjust(CancelEdit(typed, scene, show), scene, show) == OpenAdjust(e, scene, show)
  {
  }

  /** Saving the seeded fields untouched adjusts the scene to its own times
      when they are ordered, and keeps the editor open otherwise, as long as
      the rendered numbers parse back to themselves. */
  lemma SaveSeeded(e: Editor, scene: Scene, show: real -> string, parse: string -> Option<real>)
    requires parse(show(scene.startTime)) == Some(scene.startTime)
    requires parse(show(scene.endTime)) == Some(scene.endTime)
    ensures var r := SaveAdjust(OpenAdjust(e, scene, show), parse);
      && (r.adjusted.Some? <==> scene.startTime < scene.endTime)
      && (r.adjusted.Some? ==> r.adjusted.value == (scene.startTime, scene.endTime) && !r.editor.editing)
      && (r.adjusted.None? ==> r.editor.editing)
  {
  }

  /** A rejected save changes nothing, so pressing Save again does the same. */
  lemma RejectedSaveIsStable(e: Editor, parse: string -> Option<real>)
    requires SaveAdjust(e, parse).adjusted.None?
    ensures SaveAdjust(SaveAdjust(e, parse).editor, parse) == SaveAdjust(e, parse)
  {
  }

  /** The thumbnail's file name: the text after the last `/` of its path,
      or empty when there is no path. */
  function ThumbnailFilename(path: Option<string>): (name: string)
    ensures '/' !in name
    ensures path.Some? ==> IsTail(path.value, name, '/')
    ensures path.None? ==> name == ""
  {
    if path.None? || path.value == "" then "" else LastSegment(path.value)
  }

  /** A path's last segment is empty exactly when the path is empty or
      ends in `/`. */
  lemma TailEmptyIff(s: string, r: string)
    requires '/' !in r && IsTail(s, r, '/')
    ensures r == "" <==> (s == "" || s[|s| - 1] == '/')
  {
    if r != "" && s != "" {
      assert s[|s| - 1] == r[|r| - 1];
    }
  }

  lemma FilenameEmptyIff(path: Option<string>)
    ensures ThumbnailFilename(path) == "" <==>
      (path.None? || path.value == "" || path.value[|path.value| - 1] == '/')
  {
    if path.Some? {
      TailEmptyIff(path.value, ThumbnailFilename(path));
    }
  }

  /** The link of the thumbnail image, or `None` when there is no file name. */
  function ThumbUrl(base: string, scene: Scene): (url: Option<string>)
    ensures url.None? <==>
      (scene.thumbnailPath.None? || scene.thumbnailPath.value == ""
       || scene.thumbnailPath.value[|scene.thumbnailPath.value| - 1] == '/')
    ensures url.Some? ==>
      url.value == ApiClient.ThumbnailUrl(base, scene.jobId, ThumbnailFilename(scene.thumbnailPath))
  {
    var name := ThumbnailFilename(scene.thumbnailPath);
    FilenameEmptyIff(scene.thumbnailPath);
    if name == "" then None else Some(ApiClient.ThumbnailUrl(base, scene.jobId, name))
  }

  /** The link names the same file as the scene's stored thumbnail path. */
  lemma ThumbUrlNamesStoredFile(base: string, scene: Scene)
    requires ThumbUrl(base, scene).Some?
    ensures LastSegment(ThumbUrl(base, scene).value) == LastSegment(scene.thumbnailPath.value)
  {
    ApiClient.ThumbnailUrlNamesFile(base, scene.jobId, ThumbnailFilename(scene.thumbnailPath));
  }

  /** Delete is offered only for a scene that is neither first nor last. */
  predicate DeleteOffered(isFirst: bool, isLast: bool) {
    !isFirst && !isLast
  }

  /** In the scene list, the card at position `i` of `n` offers Delete
      exactly when it is an interior scene, so a list of at most two scenes
      offers it nowhere. */
  lemma DeleteOnlyInterior(i: nat, n: nat)
    requires i < n
    ensures DeleteOffered(i == 0, i == n - 1) <==> 0 < i < n - 1
    ensures n <= 2 ==> !DeleteOffered(i == 0, i == n - 1)
  {
  }
}
