/** The front end's live-state snapshot and the message handler that reduces
    push-channel frames into it (frontend/src/context/digitizer-context.tsx). */
module LiveState {
  import opened Wrappers
  import opened Json

  datatype AnalysisProgress = AnalysisProgress(jobId: JsValue, progress: JsValue)

  datatype SplitProgress = SplitProgress(jobId: JsValue, progress: JsValue, currentScene: JsValue)

  /** The snapshot every view reads. Fields filled from payloads hold the
      value that arrived, since the handler's casts are not checked. */
  datatype State = State(
    driveStatus: JsValue,
    activeJobId: JsValue,
    activeJobProgress: JsValue,
    lastCompletedJob: JsValue,
    lastFailedJob: JsValue,
    connected: bool,
    captureStatus: JsValue,
    captureJobId: JsValue,
    captureElapsed: JsValue,
    captureFileSize: JsValue,
    analysisProgress: Option<AnalysisProgress>,
    splitProgress: Option<SplitProgress>)

  const Initial := State(
    Str("empty"), Null, Num(0.0), Null, Null, false,
    Str("idle"), Null, Num(0.0), Num(0.0), None, None)

  /** The event vocabulary of the push channel. */
  const EventTypes: set<string> := {
    "drive_status", "capture_status", "job_progress", "job_complete", "job_failed",
    "analysis_progress", "analysis_complete", "analysis_failed",
    "split_progress", "split_complete", "split_failed"}

  /** The event types whose handling reads fields of `data`. */
  const ReadsData: set<string> := {
    "drive_status", "capture_status", "job_progress", "analysis_progress", "split_progress"}

  /** Names for the snapshot's fields, to say which ones an event may change. */
  datatype Field =
    | DriveStatusField | ActiveJobIdField | ActiveJobProgressField
    | LastCompletedField | LastFailedField | ConnectedField
    | CaptureStatusField | CaptureJobIdField | CaptureElapsedField | CaptureFileSizeField
    | AnalysisField | SplitField

  /** `a` and `b` hold the same value in field `f`. */
  predicate Agree(a: State, b: State, f: Field) {
    match f
    case DriveStatusField => a.driveStatus == b.driveStatus
    case ActiveJobIdField => a.activeJobId == b.activeJobId
    case ActiveJobProgressField => a.activeJobProgress == b.activeJobProgress
    case LastCompletedField => a.lastCompletedJob == b.lastCompletedJob
    case LastFailedField => a.lastFailedJob == b.lastFailedJob
    case ConnectedField => a.connected == b.connected
    case CaptureStatusField => a.captureStatus == b.captureStatus
    case CaptureJobIdField => a.captureJobId == b.captureJobId
    case CaptureElapsedField => a.captureElapsed == b.captureElapsed
    case CaptureFileSizeField => a.captureFileSize == b.captureFileSize
    case AnalysisField => a.analysisProgress == b.analysisProgress
    case SplitField => a.splitProgress == b.splitProgress
  }

  /** The fields an event of type `eventType` is allowed to write. A
      `job_progress` frame is a capture update when `capture` holds (its
      `elapsed` member is present) and a rip update otherwise. */
  function Writes(eventType: string, capture: bool): set<Field> {
    if eventType == "drive_status" then {DriveStatusField}
    else if eventType == "capture_status" then
      {CaptureStatusField, CaptureJobIdField, CaptureElapsedField, CaptureFileSizeField}
    else if eventType == "job_progress" then
      if capture then {CaptureJobIdField, CaptureElapsedField, CaptureFileSizeField}
      else {ActiveJobIdField, ActiveJobProgressField}
    else if eventType == "job_complete" then {ActiveJobIdField, ActiveJobProgressField, LastCompletedField}
    else if eventType == "job_failed" then {ActiveJobIdField, ActiveJobProgressField, LastFailedField}
    else if eventType in {"analysis_progress", "analysis_complete", "analysis_failed"} then {AnalysisField}
    else if eventType in {"split_progress", "split_complete", "split_failed"} then {SplitField}
    else {}
  }

  /** A frame `{event, data}` as the back end sends it. */
  function Frame(eventType: string, data: JsValue): JsValue {
    Obj(map["event" := Str(eventType), "data" := data])
  }

  /** `fields[key]`, or `undefined` when absent. */
  function Get(fields: map<string, JsValue>, key: string): JsValue {
    if key in fields then fields[key] else Undefined
  }

  /** `const { event, data } = msg`: `None` when destructuring throws, which
      happens inside the handler's `try` and so drops the frame. */
  function Destructure(msg: JsValue): Option<(JsValue, JsValue)> {
    if msg.Null? || msg.Undefined? then None
    else Some((Prop(msg, "event").value, Prop(msg, "data").value))
  }

  /** The event type of a parsed frame, or "" when it has no string `event`. */
  function EventName(parsed: Option<JsValue>): string {
    match parsed
    case None => ""
    case Some(msg) =>
      match Destructure(msg)
      case Some((Str(name), _)) => name
      case _ => ""
  }

  /** The frame's `data.elapsed` is present, which makes `job_progress` a capture update. */
  predicate IsCaptureProgress(parsed: Option<JsValue>) {
    match parsed
    case None => false
    case Some(msg) =>
      match Destructure(msg)
      case Some((_, data)) => Prop(data, "elapsed").Ok? && Prop(data, "elapsed").value != Undefined
      case None => false
  }

  /** The state updater passed to `setState`, as written. Reading a member of
      a `null` or missing `data` throws; React runs the updater outside the
      handler's `try`, so the exception escapes (`Err`). */
  function UpdateAsWritten(prev: State, eventType: JsValue, data: JsValue): Result<State> {
    if !eventType.Str? then Ok(prev)
    else if eventType.s in ReadsData && (data.Null? || data.Undefined?) then
      Err("TypeError: Cannot read properties of " + if data.Null? then "null" else "undefined")
    else Ok(Update(prev, eventType.s, data))
  }

  /** The updater's result once reading members of `data` cannot throw. */
  function Update(prev: State, name: string, data: JsValue): State {
    if name == "drive_status" then
      prev.(driveStatus := Member(data, "status"))
    else if name == "capture_status" then
      var status := Member(data, "status");
      if status == Str("idle") then
        prev.(captureStatus := status, captureJobId := Null,
              captureElapsed := Num(0.0), captureFileSize := Num(0.0))
      else prev.(captureStatus := status)
    else if name == "job_progress" then
      if Member(data, "elapsed") != Undefined then
        prev.(captureJobId := Member(data, "job_id"), captureElapsed := Member(data, "elapsed"),
              captureFileSize := Member(data, "file_size"))
      else
        prev.(activeJobId := Member(data, "job_id"), activeJobProgress := Member(data, "progress"))
    else if name == "job_complete" then
      prev.(activeJobId := Null, activeJobProgress := Num(0.0), lastCompletedJob := data)
    else if name == "job_failed" then
      prev.(activeJobId := Null, activeJobProgress := Num(0.0), lastFailedJob := data)
    else if name == "analysis_progress" then
      prev.(analysisProgress := Some(AnalysisProgress(Member(data, "job_id"), Member(data, "progress"))))
    else if name == "analysis_complete" || name == "analysis_failed" then
      prev.(analysisProgress := None)
    else if name == "split_progress" then
      prev.(splitProgress := Some(SplitProgress(
        Member(data, "job_id"), Member(data, "progress"), Member(data, "current_scene"))))
    else if name == "split_complete" || name == "split_failed" then
      prev.(splitProgress := None)
    else prev
  }

  /** Each event type writes only the fields `Writes` allows it. */
  lemma UpdateWritesOnly(prev: State, name: string, data: JsValue)
    ensures forall f :: f !in Writes(name, Member(data, "elapsed") != Undefined) ==>
      Agree(prev, Update(prev, name, data), f)
  {
    if name == "drive_status" {
      DriveStatusWritesOnly(prev, data);
    } else if name == "capture_status" {
      CaptureStatusWritesOnly(prev, data);
    } else if name in {"analysis_progress", "analysis_complete", "analysis_failed"} {
      AnalysisWritesOnly(prev, name, data);
    } else if name in {"split_progress", "split_complete", "split_failed"} {
      SplitWritesOnly(prev, name, data);
    } else if name in {"job_progress", "job_complete", "job_failed"} {
      JobWritesOnly(prev, name, data);
    } else {
      assert Update(prev, name, data) == prev;
    }
  }

  lemma JobWritesOnly(prev: State, name: string, data: JsValue)
    requires name in {"job_progress", "job_complete", "job_failed"}
    ensures forall f :: f !in Writes(name, Member(data, "elapsed") != Undefined) ==>
      Agree(prev, Update(prev, name, data), f)
  {
  }

  lemma DriveStatusWritesOnly(prev: State, data: JsValue)
    ensures forall f :: f != DriveStatusField ==> Agree(prev, Update(prev, "drive_status", data), f)
  {
    var r := Update(prev, "drive_status", data);
    assert r == prev.(driveStatus := r.driveStatus);
  }

  lemma CaptureStatusWritesOnly(prev: State, data: JsValue)
    ensures forall f :: f !in {CaptureStatusField, CaptureJobIdField, CaptureElapsedField, CaptureFileSizeField} ==>
      Agree(prev, Update(prev, "capture_status", data), f)
  {
    var r := Update(prev, "capture_status", data);
    assert r == prev.(captureStatus := r.captureStatus, captureJobId := r.captureJobId,
                      captureElapsed := r.captureElapsed, captureFileSize := r.captureFileSize);
  }

  lemma AnalysisWritesOnly(prev: State, name: string, data: JsValue)
    requires name in {"analysis_progress", "analysis_complete", "analysis_failed"}
    ensures forall f :: f != AnalysisField ==> Agree(prev, Update(prev, name, data), f)
  {
    var r := Update(prev, name, data);
    assert r == prev.(analysisProgress := r.analysisProgress);
  }

  lemma SplitWritesOnly(prev: State, name: string, data: JsValue)
    requires name in {"split_progress", "split_complete", "split_failed"}
    ensures forall f :: f != SplitField ==> Agree(prev, Update(prev, name, data), f)
  {
    var r := Update(prev, name, data);
    assert r == prev.(splitProgress := r.splitProgress);
  }

  /** The message handler as written: `parsed` is `None` when `JSON.parse`
      threw. `Err` means the updater threw out of the handler. */
  function OnMessageAsWritten(prev: State, parsed: Option<JsValue>): Result<State> {
    match parsed
    case None => Ok(prev)
    case Some(msg) =>
      match Destructure(msg)
      case None => Ok(prev)
      case Some((eventType, data)) => UpdateAsWritten(prev, eventType, data)
  }

  /** The as-written handler throws exactly for a frame of a type that reads
      `data` whose `data` is `null` or missing. */
  lemma AsWrittenThrowsExactly(prev: State, parsed: Option<JsValue>)
    ensures OnMessageAsWritten(prev, parsed).Err? <==>
      && parsed.Some?
      && Destructure(parsed.value).Some?
      && EventName(parsed) in ReadsData
      && (Destructure(parsed.value).value.1.Null? || Destructure(parsed.value).value.1.Undefined?)
  {
  }

  /** A concrete frame the `try` in the handler does not protect: the
      updater reads `data.status` of a frame without `data`. */
  lemma UpdaterThrowsOnMissingData(prev: State)
    ensures OnMessageAsWritten(prev, Some(Obj(map["event" := Str("drive_status")]))).Err?
  {
    var msg := Obj(map["event" := Str("drive_status")]);
    assert Destructure(msg) == Some((Str("drive_status"), Undefined));
  }

  lemma HandlerWritesOnly(prev: State, parsed: Option<JsValue>)
    ensures OnMessageAsWritten(prev, parsed).Ok? ==>
      forall f :: f !in Writes(EventName(parsed), IsCaptureProgress(parsed)) ==>
        Agree(prev, OnMessageAsWritten(prev, parsed).value, f)
  {
    if parsed.Some? && Destructure(parsed.value).Some? {
      var (eventType, data) := Destructure(parsed.value).value;
      if eventType.Str? {
        UpdateWritesOnly(prev, eventType.s, data);
      }
    }
  }

  /** No event writes `connected`. */
  lemma ConnectedNeverWritten(name: string, capture: bool)
    ensures ConnectedField !in Writes(name, capture)
  {
  }

  lemma AgreeSelf(s: State)
    ensures forall f :: Agree(s, s, f)
  {
  }

  /** A frame of an unknown type, or without a readable one, changes nothing. */
  lemma HandlerIgnoresUnknown(prev: State, parsed: Option<JsValue>)
    ensures EventName(parsed) !in EventTypes ==> OnMessageAsWritten(prev, parsed) == Ok(prev)
  {
    if EventName(parsed) !in EventTypes && parsed.Some? && Destructure(parsed.value).Some? {
      var (eventType, data) := Destructure(parsed.value).value;
      if eventType.Str? {
        assert eventType.s !in ReadsData;
        assert Update(prev, eventType.s, data) == prev;
      }
    }
  }

  /** The message handler with malformed frames dropped, as its `catch`
      intends: a frame that cannot be read leaves the state unchanged. No
      frame changes `connected`, and each event type writes only its own
      fields. */
  function OnMessage(prev: State, parsed: Option<JsValue>): (r: State)
    ensures r.connected == prev.connected
    ensures forall f :: f !in Writes(EventName(parsed), IsCaptureProgress(parsed)) ==> Agree(prev, r, f)
    ensures EventName(parsed) !in EventTypes ==> r == prev
    ensures OnMessageAsWritten(prev, parsed).Err? ==> r == prev
    ensures OnMessageAsWritten(prev, parsed).Ok? ==> r == OnMessageAsWritten(prev, parsed).value
  {
    HandlerWritesOnly(prev, parsed);
    HandlerIgnoresUnknown(prev, parsed);
    ConnectedNeverWritten(EventName(parsed), IsCaptureProgress(parsed));
    AgreeSelf(prev);
    match OnMessageAsWritten(prev, parsed)
    case Ok(next) => next
    case Err(_) => prev
  }

  /** A well-formed frame is handled by `Update`, unless its type reads
      `data` and `data` is `null` or missing, in which case it is dropped. */
  lemma FrameHandled(prev: State, name: string, data: JsValue)
    ensures OnMessage(prev, Some(Frame(name, data))) ==
      if name in ReadsData && (data.Null? || data.Undefined?) then prev else Update(prev, name, data)
  {
    assert Destructure(Frame(name, data)) == Some((Str(name), data));
  }

  /** A `job_progress` frame carrying `elapsed` is a capture update: it sets
      the capture job id, elapsed time and file size from the payload. */
  lemma CaptureProgressValues(prev: State, fields: map<string, JsValue>)
    requires "elapsed" in fields && fields["elapsed"] != Undefined
    ensures var r := OnMessage(prev, Some(Frame("job_progress", Obj(fields))));
      && r.captureJobId == Get(fields, "job_id")
      && r.captureElapsed == fields["elapsed"]
      && r.captureFileSize == Get(fields, "file_size")
      && r.activeJobId == prev.activeJobId
      && r.activeJobProgress == prev.activeJobProgress
      && r == prev.(captureJobId := r.captureJobId, captureElapsed := r.captureElapsed,
                    captureFileSize := r.captureFileSize)
  {
    FrameHandled(prev, "job_progress", Obj(fields));
  }

  /** A `job_progress` frame without `elapsed` is a rip update: it sets the
      active job id and progress and nothing else. */
  lemma RipProgressValues(prev: State, fields: map<string, JsValue>)
    requires Get(fields, "elapsed") == Undefined
    ensures var r := OnMessage(prev, Some(Frame("job_progress", Obj(fields))));
      && r.activeJobId == Get(fields, "job_id")
      && r.activeJobProgress == Get(fields, "progress")
      && r == prev.(activeJobId := r.activeJobId, activeJobProgress := r.activeJobProgress)
  {
    FrameHandled(prev, "job_progress", Obj(fields));
  }

  /** `capture_status` replaces the status; `idle` also clears the capture
      job id, elapsed time and size, any other status leaves them. */
  lemma CaptureStatusValues(prev: State, fields: map<string, JsValue>)
    ensures var r := OnMessage(prev, Some(Frame("capture_status", Obj(fields))));
      && r.captureStatus == Get(fields, "status")
      && (Get(fields, "status") == Str("idle") ==>
            r == prev.(captureStatus := Str("idle"), captureJobId := Null,
                       captureElapsed := Num(0.0), captureFileSize := Num(0.0)))
      && (Get(fields, "status") != Str("idle") ==> r == prev.(captureStatus := r.captureStatus))
  {
    FrameHandled(prev, "capture_status", Obj(fields));
  }

  /** `job_complete` and `job_failed` clear the active job and record the
      payload in their own slot only, whatever the payload is. */
  lemma TerminalJobValues(prev: State, data: JsValue)
    ensures OnMessage(prev, Some(Frame("job_complete", data))) ==
      prev.(activeJobId := Null, activeJobProgress := Num(0.0), lastCompletedJob := data)
    ensures OnMessage(prev, Some(Frame("job_failed", data))) ==
      prev.(activeJobId := Null, activeJobProgress := Num(0.0), lastFailedJob := data)
  {
    FrameHandled(prev, "job_complete", data);
    FrameHandled(prev, "job_failed", data);
  }

  /** Analysis and split progress are replaced wholesale, whichever job they
      tracked before. */
  lemma TrackedProgressValues(prev: State, fields: map<string, JsValue>)
    ensures OnMessage(prev, Some(Frame("analysis_progress", Obj(fields)))).analysisProgress ==
      Some(AnalysisProgress(Get(fields, "job_id"), Get(fields, "progress")))
    ensures OnMessage(prev, Some(Frame("split_progress", Obj(fields)))).splitProgress ==
      Some(SplitProgress(Get(fields, "job_id"), Get(fields, "progress"), Get(fields, "current_scene")))
  {
    FrameHandled(prev, "analysis_progress", Obj(fields));
    FrameHandled(prev, "split_progress", Obj(fields));
  }

  /** The terminal analysis and split events clear the tracked progress,
      whatever their payload. */
  lemma TrackedProgressCleared(prev: State, name: string, data: JsValue)
    requires name in {"analysis_complete", "analysis_failed", "split_complete", "split_failed"}
    ensures name in {"analysis_complete", "analysis_failed"} ==>
      OnMessage(prev, Some(Frame(name, data))).analysisProgress.None?
    ensures name in {"split_complete", "split_failed"} ==>
      OnMessage(prev, Some(Frame(name, data))).splitProgress.None?
  {
    FrameHandled(prev, name, data);
  }

  /** Frames fed one after another, as the channel delivers them. */
  function Reduce(s: State, frames: seq<JsValue>): State
    decreases |frames|
  {
    if frames == [] then s else Reduce(OnMessage(s, Some(frames[0])), frames[1..])
  }

  lemma {:induction false} ReduceAppend(s: State, xs: seq<JsValue>, ys: seq<JsValue>)
    ensures Reduce(s, xs + ys) == Reduce(Reduce(s, xs), ys)
    decreases |xs|
  {
    if xs == [] {
      assert xs + ys == ys;
    } else {
      var s' := OnMessage(s, Some(xs[0]));
      assert (xs + ys)[0] == xs[0];
      assert (xs + ys)[1..] == xs[1..] + ys;
      assert Reduce(s, xs + ys) == Reduce(s', xs[1..] + ys);
      assert Reduce(s, xs) == Reduce(s', xs[1..]);
      ReduceAppend(s', xs[1..], ys);
    }
  }

  /** A sequence of frames never changes `connected`. */
  lemma {:induction false} ReduceKeepsConnected(s: State, frames: seq<JsValue>)
    ensures Reduce(s, frames).connected == s.connected
    decreases |frames|
  {
    if frames != [] {
      ReduceKeepsConnected(OnMessage(s, Some(frames[0])), frames[1..]);
    }
  }
}
