/** The front end's REST client: the URLs and request shapes it builds and
    the way it turns a non-ok HTTP response into an error. The network is
    not modelled: a request is described by a `Call`, and its answer is a
    `Response` handed in by the caller. */
module ApiClient {
  import opened Wrappers
  import opened Text
  import opened Json
  import Seqs

  /** What `fetch` is asked to do: method, path below the base URL, and an
      optional JSON body (sent with a JSON content type). */
  datatype Call = Call(verb: string, path: string, body: Option<JsValue>)

  /** The parts of a `fetch` response the client looks at. */
  datatype Response = Response(ok: bool, status: nat, statusText: string, body: JsValue)

  const ErrorPrefix: string := "API error "

  /** The message of the error thrown for a non-ok response. */
  function ErrorMessage(status: nat, statusText: string): string {
    ErrorPrefix + NatToString(status) + ": " + statusText
  }

  /** Reads a message of the `ErrorMessage` shape back into its status code
      and status text; `None` for any other text. */
  function ParseError(msg: string): Option<(nat, string)> {
    if |msg| < |ErrorPrefix| || msg[..|ErrorPrefix|] != ErrorPrefix then None
    else
      var rest := msg[|ErrorPrefix|..];
      if ':' !in rest then None
      else
        var i := IndexOf(rest, ':');
        if i == 0 || !AllDigits(rest[..i]) || i + 1 >= |rest| || rest[i + 1] != ' ' then None
        else Some((DigitsValue(rest[..i]), rest[i + 2..]))
  }

  /** Every error message can be read back into the status it reports. */
  lemma ErrorMessageParses(status: nat, statusText: string)
    ensures ParseError(ErrorMessage(status, statusText)) == Some((status, statusText))
  {
    var d := NatToString(status);
    var msg := ErrorMessage(status, statusText);
    var rest := d + ": " + statusText;
    assert msg == ErrorPrefix + rest;
    assert msg[..|ErrorPrefix|] == ErrorPrefix;
    assert msg[|ErrorPrefix|..] == rest;
    assert rest[|d|] == ':';
    var i := IndexOf(rest, ':');
    assert rest[..i] == d;
    assert rest[i + 1] == ' ';
    assert rest[i + 2..] == statusText;
  }

  /** Performing a request once its response is known: a non-ok response
      becomes an error naming its status; an ok one yields the decoded body. */
  function Request(res: Response): (r: Result<JsValue>)
    ensures r.Err? <==> !res.ok
    ensures r.Err? ==> ParseError(r.msg) == Some((res.status, res.statusText))
    ensures r.Ok? ==> r.value == res.body
  {
    if !res.ok then
      ErrorMessageParses(res.status, res.statusText);
      Err(ErrorMessage(res.status, res.statusText))
    else Ok(res.body)
  }

  /** The full URL of a call: the configured base followed by the path. */
  function Url(base: string, c: Call): string {
    base + c.path
  }

  /** JavaScript truthiness of an optional string argument. */
  predicate Given(s: Option<string>) {
    s.Some? && s.value != ""
  }

  /** `getJobs(limit, offset, sourceType)`; a missing limit or offset takes
      its default (10 and 0). */
  function GetJobs(limit: Option<int>, offset: Option<int>, sourceType: Option<string>): Call {
    var query := "limit=" + IntToString(limit.GetOr(10)) + "&offset=" + IntToString(offset.GetOr(0));
    var query := if Given(sourceType) then query + "&source_type=" + sourceType.value else query;
    Call("GET", "/api/jobs?" + query, None)
  }

  /** The `key=value` pairs after the first `?` of a path, split on `&`. */
  function Query(path: string): seq<string> {
    if '?' !in path then [] else Split(path[IndexOf(path, '?') + 1..], '&')
  }

  /** The value of the first pair named `key`. */
  function Param(pairs: seq<string>, key: string): Option<string> {
    if pairs == [] then None
    else
      var k := key + "=";
      if |k| <= |pairs[0]| && pairs[0][..|k|] == k then Some(pairs[0][|k|..])
      else Param(pairs[1..], key)
  }

  /** The query pairs `getJobs` is meant to send. */
  function JobsPairs(limit: int, offset: int, sourceType: Option<string>): seq<string> {
    ["limit=" + IntToString(limit), "offset=" + IntToString(offset)]
      + (if Given(sourceType) then ["source_type=" + sourceType.value] else [])
  }

  /** A rendered integer holds no `&`. */
  lemma IntHasNoAmpersand(i: int)
    ensures '&' !in IntToString(i)
  {
    if i < 0 {
      assert IntToString(i) == "-" + NatToString(-i);
    }
  }

  /** The text after `/api/jobs?` in the path of `getJobs` is its pairs
      joined with `&`. */
  lemma JobsQueryJoined(limit: Option<int>, offset: Option<int>, sourceType: Option<string>)
    ensures var p := GetJobs(limit, offset, sourceType).path;
      |p| >= 10 && p[..10] == "/api/jobs?"
      && p[10..] == Join(JobsPairs(limit.GetOr(10), offset.GetOr(0), sourceType), '&')
  {
    var l, o := IntToString(limit.GetOr(10)), IntToString(offset.GetOr(0));
    var query := "limit=" + l + "&offset=" + o;
    assert "&offset=" == "&" + "offset=";
    Seqs.JoinTwo("limit=", l, "&", "offset=", o);
    JoinTwo("limit=" + l, "offset=" + o, '&');
    if Given(sourceType) {
      var s := sourceType.value;
      assert "&source_type=" == "&" + "source_type=";
      Seqs.JoinThree("limit=", l, "&", "offset=", o, "source_type=", s);
      JoinThree("limit=" + l, "offset=" + o, "source_type=" + s, '&');
    }
  }

  /** No intended pair holds an `&` when the source type does not. */
  lemma JobsPairsSeparated(limit: int, offset: int, sourceType: Option<string>)
    requires sourceType.Some? ==> '&' !in sourceType.value
    ensures forall k :: 0 <= k < |JobsPairs(limit, offset, sourceType)| ==> '&' !in JobsPairs(limit, offset, sourceType)[k]
  {
    var pairs := JobsPairs(limit, offset, sourceType);
    IntHasNoAmpersand(limit);
    IntHasNoAmpersand(offset);
    forall k | 0 <= k < |pairs|
      ensures '&' !in pairs[k]
    {
      if k == 0 {
        assert pairs[0] == "limit=" + IntToString(limit);
      } else if k == 1 {
        assert pairs[1] == "offset=" + IntToString(offset);
      } else {
        assert pairs[2] == "source_type=" + sourceType.value;
      }
    }
  }

  /** The query of a `/api/jobs?` path is the rest split on `&`. */
  lemma JobsPathQuery(p: string)
    requires |p| >= 10 && p[..10] == "/api/jobs?"
    ensures Query(p) == Split(p[10..], '&')
  {
    assert p[..10][9] == '?';
    assert '?' !in p[..10][..9];
    assert IndexOf(p, '?') == 9;
  }

  /** The path of `getJobs` is `/api/jobs` with exactly the intended pairs
      as its query, provided the source type holds no `&` (it is sent
      without URL encoding). */
  lemma GetJobsQuery(limit: Option<int>, offset: Option<int>, sourceType: Option<string>)
    requires sourceType.Some? ==> '&' !in sourceType.value
    ensures var p := GetJobs(limit, offset, sourceType).path;
      |p| >= 10 && p[..10] == "/api/jobs?"
      && Query(p) == JobsPairs(limit.GetOr(10), offset.GetOr(0), sourceType)
  {
    var pairs := JobsPairs(limit.GetOr(10), offset.GetOr(0), sourceType);
    var p := GetJobs(limit, offset, sourceType).path;
    JobsQueryJoined(limit, offset, sourceType);
    JobsPairsSeparated(limit.GetOr(10), offset.GetOr(0), sourceType);
    JobsPathQuery(p);
    SplitJoin(pairs, '&');
  }

  /** A pair named `key` is found in front of the others. */
  lemma ParamHead(key: string, value: string, rest: seq<string>)
    ensures Param([key + "=" + value] + rest, key) == Some(value)
  {
    var q := [key + "=" + value] + rest;
    assert q[0][..|key + "="|] == key + "=";
    assert q[0][|key + "="|..] == value;
  }

  /** A pair whose first character differs from the key's is skipped. */
  lemma ParamSkip(key: string, pair: string, rest: seq<string>)
    requires |key| > 0 && |pair| > 0 && pair[0] != key[0]
    ensures Param([pair] + rest, key) == Param(rest, key)
  {
    var q := [pair] + rest;
    var k := key + "=";
    if |k| <= |pair| {
      assert pair[..|k|][0] != k[0];
    }
    assert q[1..] == rest;
  }

  /** Looking the three names up among the intended pairs. */
  lemma JobsPairsParams(limit: int, offset: int, sourceType: Option<string>)
    ensures var q := JobsPairs(limit, offset, sourceType);
      && Param(q, "limit") == Some(IntToString(limit))
      && Param(q, "offset") == Some(IntToString(offset))
      && Param(q, "source_type") == if Given(sourceType) then sourceType else None
  {
    var l, o := IntToString(limit), IntToString(offset);
    var a, b := "limit=" + l, "offset=" + o;
    var tail: seq<string> := if Given(sourceType) then ["source_type=" + sourceType.value] else [];
    assert JobsPairs(limit, offset, sourceType) == [a] + ([b] + tail);
    assert "limit=" == "limit" + "=" && "offset=" == "offset" + "=";
    assert "source_type=" == "source_type" + "=";
    ParamHead("limit", l, [b] + tail);
    ParamSkip("offset", a, [b] + tail);
    ParamHead("offset", o, tail);
    ParamSkip("source_type", a, [b] + tail);
    ParamSkip("source_type", b, tail);
    if Given(sourceType) {
      ParamHead("source_type", sourceType.value, []);
    }
  }

  /** Reading the query of `getJobs` back gives the limit and offset that
      were used, and a source type exactly when a non-empty one was given. */
  lemma GetJobsParams(limit: Option<int>, offset: Option<int>, sourceType: Option<string>)
    requires sourceType.Some? ==> '&' !in sourceType.value
    ensures var q := Query(GetJobs(limit, offset, sourceType).path);
      && Param(q, "limit") == Some(IntToString(limit.GetOr(10)))
      && Param(q, "offset") == Some(IntToString(offset.GetOr(0)))
      && (Given(sourceType) ==> Param(q, "source_type") == sourceType)
      && (!Given(sourceType) ==> Param(q, "source_type") == None)
  {
    GetJobsQuery(limit, offset, sourceType);
    JobsPairsParams(limit.GetOr(10), offset.GetOr(0), sourceType);
  }

  /** The limit and offset read back from `getJobs` are the numbers used. */
  lemma GetJobsNumbers(limit: Option<int>, offset: Option<int>, sourceType: Option<string>)
    requires sourceType.Some? ==> '&' !in sourceType.value
    ensures var q := Query(GetJobs(limit, offset, sourceType).path);
      && Param(q, "limit").Some? && ParseInt(Param(q, "limit").value) == Some(limit.GetOr(10))
      && Param(q, "offset").Some? && ParseInt(Param(q, "offset").value) == Some(offset.GetOr(0))
  {
    GetJobsParams(limit, offset, sourceType);
  }

  /** `startCapture()` and `stopCapture()`. */
  function StartCapture(): Call {
    Call("POST", "/api/capture/start", None)
  }

  function StopCapture(): Call {
    Call("POST", "/api/capture/stop", None)
  }

  /** The path of a job-scoped resource, `/api/jobs/{id}` plus a suffix. */
  function JobPath(jobId: string, suffix: string): string {
    "/api/jobs/" + jobId + suffix
  }

  function GetJob(jobId: string): Call {
    Call("GET", JobPath(jobId, ""), None)
  }

  function DeleteJob(jobId: string): Call {
    Call("DELETE", JobPath(jobId, ""), None)
  }

  function AnalyzeScenes(jobId: string): Call {
    Call("POST", JobPath(jobId, "/analyze"), None)
  }

  function SplitScenes(jobId: string): Call {
    Call("POST", JobPath(jobId, "/split"), None)
  }

  /** One entry of the list `updateScenes` sends. */
  datatype SceneEdit = SceneEdit(sceneIndex: int, startTime: real, endTime: real)

  function EditToJson(e: SceneEdit): JsValue {
    Obj(map["scene_index" := Int(e.sceneIndex), "start_time" := Num(e.startTime),
            "end_time" := Num(e.endTime)])
  }

  /** `getScenes(jobId)`. */
  function GetScenes(jobId: string): Call {
    Call("GET", JobPath(jobId, "/scenes"), None)
  }

  /** `updateScenes(jobId, scenes)`: the list travels as a JSON array body. */
  function UpdateScenes(jobId: string, scenes: seq<SceneEdit>): Call {
    Call("PUT", JobPath(jobId, "/scenes"), Some(Arr(seq(|scenes|, k requires 0 <= k < |scenes| => EditToJson(scenes[k])))))
  }

  /** Reads one entry of a scenes body back. */
  function JsonToEdit(v: JsValue): Option<SceneEdit> {
    if !v.Obj? || "scene_index" !in v.fields || "start_time" !in v.fields || "end_time" !in v.fields then None
    else
      var i, s, e := v.fields["scene_index"], v.fields["start_time"], v.fields["end_time"];
      if i.Num? && i.n.Floor as real == i.n && s.Num? && e.Num? then Some(SceneEdit(i.n.Floor, s.n, e.n))
      else None
  }

  /** Reads a scenes body back; `None` unless every entry has the edit shape. */
  function JsonToEdits(items: seq<JsValue>): Option<seq<SceneEdit>> {
    if items == [] then Some([])
    else
      match (JsonToEdit(items[0]), JsonToEdits(items[1..]))
      case (Some(e), Some(rest)) => Some([e] + rest)
      case _ => None
  }

  /** The scene list reads back from the body of `updateScenes` unchanged. */
  lemma {:induction false} EditsRoundTrip(scenes: seq<SceneEdit>)
    ensures var items := seq(|scenes|, k requires 0 <= k < |scenes| => EditToJson(scenes[k]));
      JsonToEdits(items) == Some(scenes)
  {
    var items := seq(|scenes|, k requires 0 <= k < |scenes| => EditToJson(scenes[k]));
    if scenes != [] {
      var e := scenes[0];
      assert items[0] == EditToJson(e);
      assert (e.sceneIndex as real).Floor == e.sceneIndex;
      assert JsonToEdit(items[0]) == Some(e);
      EditsRoundTrip(scenes[1..]);
      assert items[1..] == seq(|scenes[1..]|, k requires 0 <= k < |scenes[1..]| => EditToJson(scenes[1..][k]));
      assert scenes == [e] + scenes[1..];
    }
  }

  /** A job-scoped path splits on `/` into `api`, `jobs`, the id and the
      action, so the id is recoverable whenever it holds no `/`. */
  lemma JobPathSegments(jobId: string, action: string)
    requires '/' !in jobId && '/' !in action
    ensures Split(JobPath(jobId, "/" + action), '/') == ["", "api", "jobs", jobId, action]
  {
    var parts := ["", "api", "jobs", jobId, action];
    JobPathJoined(jobId, action);
    assert forall k :: 0 <= k < |parts| ==> '/' !in parts[k];
    SplitJoin(parts, '/');
  }

  /** A job path is its segments joined with `/`. */
  lemma JobPathJoined(jobId: string, action: string)
    ensures JobPath(jobId, "/" + action) == Join(["", "api", "jobs", jobId, action], '/')
  {
    JobsPrefix();
    Seqs.PathFromRight("/", "api", "jobs", jobId, action);
    JoinFive("", "api", "jobs", jobId, action, '/');
  }

  lemma JoinFive(a: string, b: string, c: string, d: string, e: string, ch: char)
    ensures Join([a, b, c, d, e], ch) == a + [ch] + (b + [ch] + (c + [ch] + (d + [ch] + e)))
  {
    assert [a, b, c, d, e][1..] == [b, c, d, e];
    assert [b, c, d, e][1..] == [c, d, e];
    JoinThree(c, d, e, ch);
  }

  lemma JobsPrefix()
    ensures "/api/jobs/" == "/" + "api" + "/" + "jobs" + "/"
  {
  }

  /** Reading and replacing a job's scenes address the same resource: the
      two calls differ only in method and body, the path names the job, and
      the body of the update carries exactly the given list. */
  lemma ScenesCallsAgree(jobId: string, scenes: seq<SceneEdit>)
    requires '/' !in jobId
    ensures GetScenes(jobId).path == UpdateScenes(jobId, scenes).path
    ensures Split(GetScenes(jobId).path, '/') == ["", "api", "jobs", jobId, "scenes"]
    ensures GetScenes(jobId).verb == "GET" && GetScenes(jobId).body == None
    ensures var c := UpdateScenes(jobId, scenes);
      c.verb == "PUT" && c.body.Some? && c.body.value.Arr?
      && JsonToEdits(c.body.value.items) == Some(scenes)
  {
    assert "/scenes" == "/" + "scenes";
    JobPathSegments(jobId, "scenes");
    EditsRoundTrip(scenes);
  }

  /** `getThumbnailUrl(jobId, filename)`. */
  function ThumbnailUrl(base: string, jobId: string, filename: string): string {
    base + "/api/thumbs/" + jobId + "/" + filename
  }

  /** The thumbnail URL starts with the base and ends with the file name. */
  lemma ThumbnailUrlNamesFile(base: string, jobId: string, filename: string)
    requires '/' !in filename
    ensures var u := ThumbnailUrl(base, jobId, filename);
      |base| <= |u| && u[..|base|] == base && LastSegment(u) == filename
  {
    var u := ThumbnailUrl(base, jobId, filename);
    assert u == (base + "/api/thumbs/" + jobId) + "/" + filename;
    LastSegmentAfterSlash(base + "/api/thumbs/" + jobId, filename);
  }
}
