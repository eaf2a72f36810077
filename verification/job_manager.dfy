/** The job manager (backend/digitizer/jobs.py): naming a rip's output file,
    the status transitions a job goes through, and turning a stored row back
    into a job record. The clock and the random id are inputs. */
module JobManager {
  import opened Wrappers
  import opened Text
  import opened Json
  import opened Models
  import Database

  /** The string keyword arguments `JobManager.__init__` declares besides `db`. */
  const InitKeywords: set<string> := {"output_base"}

  const DefaultOutputBase := "/output/dvd"

  /** Binding the string keyword arguments of a `JobManager(db=..., ...)`
      call: a keyword the constructor does not declare raises a TypeError;
      otherwise the manager numbers rips under `output_base`, by default
      `/output/dvd`. */
  function Construct(kwargs: map<string, string>): (r: Result<string>)
    ensures r.Err? <==> exists k :: k in kwargs && k !in InitKeywords
    ensures r.Ok? && "output_base" in kwargs ==> r.value == kwargs["output_base"]
    ensures r.Ok? && "output_base" !in kwargs ==> r.value == DefaultOutputBase
  {
    if kwargs.Keys <= InitKeywords then
      Ok(if "output_base" in kwargs then kwargs["output_base"] else DefaultOutputBase)
    else Err("TypeError: unexpected keyword argument")
  }

  /** `output_base/DATE_rip_NNN.mp4`, the sequence rendered as `{seq:03d}`
      renders it (`ZeroPadded` admits exactly one string, by
      `Text.ZeroPaddedUnique`). */
  function OutputPath(outputBase: string, today: string, sequence: nat): (path: string)
    ensures var prefix := outputBase + "/" + today + "_rip_";
      && |path| >= |prefix| + 3 + 4
      && path[..|prefix|] == prefix && path[|path| - 4..] == ".mp4"
      && ZeroPadded(path[|prefix|..|path| - 4], sequence, 3)
  {
    var prefix := outputBase + "/" + today + "_rip_";
    var digits := ZeroPad(sequence, 3);
    var path := prefix + digits + ".mp4";
    assert path[..|prefix|] == prefix;
    assert path[|prefix|..|path| - 4] == digits;
    path
  }

  /** The output path names the date it was made for. */
  lemma OutputPathMentionsDate(outputBase: string, today: string, sequence: nat)
    ensures Contains(OutputPath(outputBase, today, sequence), today)
  {
    ContainsInPrefix(OutputPath(outputBase, today, sequence), outputBase + "/", today, "_rip_");
  }

  /** The first rip of a day on an empty store is numbered `001`: its path
      ends in `_rip_001.mp4`. */
  lemma FirstRipNumbered001(db: Database.Db, outputBase: string, today: string, id: string, info: DiscInfo, now: string)
    requires db.jobs == []
    ensures var r := CreateJob(db, outputBase, today, id, info, now);
      && r.Ok?
      && r.value.1.outputPath == Some(outputBase + "/" + today + "_rip_001.mp4")
      && Contains(r.value.1.outputPath.value, "_rip_001")
  {
    assert Database.NextSequence(db, today) == 1;
    CreateJobFacts(db, outputBase, today, id, info, now);
    SequenceOnePath(outputBase, today);
  }

  /** Sequence 1 is written `001`. */
  lemma SequenceOnePath(outputBase: string, today: string)
    ensures OutputPath(outputBase, today, 1) == outputBase + "/" + today + "_rip_001.mp4"
    ensures Contains(outputBase + "/" + today + "_rip_001.mp4", "_rip_001")
  {
    assert ZeroPadded("001", 1, 3) by {
      assert "001"[..2] == "00" && "00"[..1] == "0" && "0"[..0] == [];
    }
    ZeroPaddedUnique(ZeroPad(1, 3), "001", 1, 3);
    var path := outputBase + "/" + today + "_rip_001.mp4";
    assert path == (outputBase + "/" + today) + "_rip_001" + ".mp4";
    ContainsInside(outputBase + "/" + today, "_rip_001", ".mp4");
  }

  /** The disc information as `model_dump()` writes it into `disc_info`. */
  function DiscInfoDict(info: DiscInfo): map<string, JsValue> {
    map["title_count" := Int(info.titleCount), "main_title" := Int(info.mainTitle), "duration" := Num(info.duration)]
  }

  /** An integer field of `DiscInfo`: absent means the default; a number
      must be whole. */
  function IntField(d: map<string, JsValue>, key: string, default: int): (r: Result<int>)
    ensures key !in d ==> r == Ok(default)
    ensures key in d && d[key] == Int(default) ==> r == Ok(default)
  {
    if key !in d then Ok(default)
    else match d[key]
      case Num(x) => if x == x.Floor as real then Ok(x.Floor) else Err("validation error")
      case _ => Err("validation error")
  }

  /** `DiscInfo(**disc_info)` for a non-empty dict and `DiscInfo()` for an
      empty one; keys it does not know are ignored. */
  function DiscInfoOf(d: map<string, JsValue>): (r: Result<DiscInfo>)
    ensures d == map[] ==> r == Ok(DefaultDiscInfo)
  {
    if d == map[] then Ok(DefaultDiscInfo)
    else
      var titleCount :- IntField(d, "title_count", 0);
      var mainTitle :- IntField(d, "main_title", 1);
      var duration :- if "duration" !in d then Ok(0.0)
        else if d["duration"].Num? then Ok(d["duration"].n)
        else Err("validation error");
      Ok(DiscInfo(titleCount, mainTitle, duration))
  }

  /** Storing disc information and reading it back gives it unchanged, and
      a dict without any known key gives the defaults. */
  lemma DiscInfoRoundTrip(info: DiscInfo, d: map<string, JsValue>)
    ensures DiscInfoOf(DiscInfoDict(info)) == Ok(info)
    ensures "title_count" !in d && "main_title" !in d && "duration" !in d ==> DiscInfoOf(d) == Ok(DefaultDiscInfo)
  {
    var dict := DiscInfoDict(info);
    assert "title_count" in dict && dict["title_count"] == Int(info.titleCount);
    assert "main_title" in dict && dict["main_title"] == Int(info.mainTitle);
    assert "duration" in dict && dict["duration"] == Num(info.duration);
  }

  /** A nullable text column. */
  function OptTextOf(v: Database.SqlValue): Result<Option<string>> {
    match v
    case SqlNull => Ok(None)
    case SqlText(s) => Ok(Some(s))
    case _ => Err("validation error")
  }

  /** A nullable integer column. */
  function OptIntOf(v: Database.SqlValue): Result<Option<int>> {
    match v
    case SqlNull => Ok(None)
    case SqlInt(i) => Ok(Some(i))
    case _ => Err("validation error")
  }

  function TextOf(v: Database.SqlValue): Result<string> {
    if v.SqlText? then Ok(v.s) else Err("validation error")
  }

  /** The `disc_info` column: a missing or null column and an empty object
      both give the defaults. */
  function DiscColumn(v: Database.SqlValue): Result<DiscInfo> {
    match v
    case SqlNull => Ok(DefaultDiscInfo)
    case SqlDoc(d) => DiscInfoOf(d)
    case _ => Err("validation error")
  }

  /** The columns `_row_to_job` reads, as `row.get` gives them. */
  datatype Columns = Columns(
    id: Database.SqlValue,
    sourceType: Database.SqlValue,
    discInfo: Database.SqlValue,
    status: Database.SqlValue,
    progress: Database.SqlValue,
    outputPath: Database.SqlValue,
    fileSize: Database.SqlValue,
    startedAt: Database.SqlValue,
    completedAt: Database.SqlValue,
    error: Database.SqlValue)

  function Read(row: Database.Row): Columns {
    Columns(
      Database.Col(row, "id"), Database.Col(row, "source_type"), Database.Col(row, "disc_info"),
      Database.Col(row, "status"), Database.Col(row, "progress"), Database.Col(row, "output_path"),
      Database.Col(row, "file_size"), Database.Col(row, "started_at"), Database.Col(row, "completed_at"),
      Database.Col(row, "error"))
  }

  function StatusOf(v: Database.SqlValue): (r: Result<JobStatus>)
    ensures r.Ok? <==> v.SqlText? && ParseJobStatus(v.s).Some?
    ensures r.Ok? ==> v == Database.SqlText(JobStatusName(r.value))
  {
    if v.SqlText? then
      match ParseJobStatus(v.s)
      case Some(s) => Ok(s)
      case None => Err("validation error")
    else Err("validation error")
  }

  function IntOf(v: Database.SqlValue): Result<int> {
    if v.SqlInt? then Ok(v.i) else Err("validation error")
  }

  /** The job the columns validate to. */
  function JobOf(c: Columns): (r: Result<Job>)
    ensures r.Ok? ==> c.id == Database.SqlText(r.value.id)
    ensures r.Ok? ==> c.status == Database.SqlText(JobStatusName(r.value.status))
    ensures r.Ok? ==> c.progress == Database.SqlInt(r.value.progress)
  {
    var id :- TextOf(c.id);
    var sourceType :- TextOf(c.sourceType);
    var discInfo :- DiscColumn(c.discInfo);
    var status :- StatusOf(c.status);
    var progress :- IntOf(c.progress);
    var outputPath :- OptTextOf(c.outputPath);
    var fileSize :- OptIntOf(c.fileSize);
    var startedAt :- OptTextOf(c.startedAt);
    var completedAt :- OptTextOf(c.completedAt);
    var error :- OptTextOf(c.error);
    Ok(Job(id, sourceType, discInfo, status, progress, outputPath, fileSize, startedAt, completedAt, error))
  }

  /** `_row_to_job`: the model's validation refuses a row whose columns have
      the wrong kind or whose status is not one of the four names. */
  function RowToJob(row: Database.Row): (r: Result<Job>)
    ensures r.Ok? ==> Database.Col(row, "id") == Database.SqlText(r.value.id)
    ensures r.Ok? ==> Database.Col(row, "status") == Database.SqlText(JobStatusName(r.value.status))
    ensures r.Ok? ==> Database.Col(row, "progress") == Database.SqlInt(r.value.progress)
  {
    JobOf(Read(row))
  }

  /** The columns of `c` overridden by those `fields` gives. */
  function Over(c: Columns, fields: map<string, Database.SqlValue>): Columns {
    Columns(
      if "id" in fields then fields["id"] else c.id,
      if "source_type" in fields then fields["source_type"] else c.sourceType,
      if "disc_info" in fields then fields["disc_info"] else c.discInfo,
      if "status" in fields then fields["status"] else c.status,
      if "progress" in fields then fields["progress"] else c.progress,
      if "output_path" in fields then fields["output_path"] else c.outputPath,
      if "file_size" in fields then fields["file_size"] else c.fileSize,
      if "started_at" in fields then fields["started_at"] else c.startedAt,
      if "completed_at" in fields then fields["completed_at"] else c.completedAt,
      if "error" in fields then fields["error"] else c.error)
  }

  lemma ReadOverride(row: Database.Row, fields: map<string, Database.SqlValue>)
    ensures Read(row + fields) == Over(Read(row), fields)
  {
  }

  /** Storing another status changes only the job's status. */
  lemma JobOfStatus(c: Columns, job: Job, status: JobStatus)
    requires JobOf(c) == Ok(job)
    ensures JobOf(c.(status := Database.SqlText(JobStatusName(status)))) == Ok(job.(status := status))
  {
  }

  /** Storing another progress changes only the job's progress. */
  lemma JobOfProgress(c: Columns, job: Job, progress: int)
    requires JobOf(c) == Ok(job)
    ensures JobOf(c.(progress := Database.SqlInt(progress))) == Ok(job.(progress := progress))
  {
  }

  /** Storing a size changes only the job's size. */
  lemma JobOfFileSize(c: Columns, job: Job, fileSize: int)
    requires JobOf(c) == Ok(job)
    ensures JobOf(c.(fileSize := Database.SqlInt(fileSize))) == Ok(job.(fileSize := Some(fileSize)))
  {
  }

  /** Storing a completion time changes only the job's completion time. */
  lemma JobOfCompletedAt(c: Columns, job: Job, at: string)
    requires JobOf(c) == Ok(job)
    ensures JobOf(c.(completedAt := Database.SqlText(at))) == Ok(job.(completedAt := Some(at)))
  {
  }

  /** Storing an error changes only the job's error. */
  lemma JobOfError(c: Columns, job: Job, error: string)
    requires JobOf(c) == Ok(job)
    ensures JobOf(c.(error := Database.SqlText(error))) == Ok(job.(error := Some(error)))
  {
  }

  /** A freshly inserted row becomes the default job record of its id
      (a detected DVD job with no progress) with only the disc information,
      the output path and the start time filled in. */
  lemma NewRowToJob(id: string, info: DiscInfo, path: string, now: string)
    ensures RowToJob(Database.NewRow(id, "dvd", DiscInfoDict(info), Some(path), now))
      == Ok(NewJob(id).(discInfo := info, outputPath := Some(path), startedAt := Some(now)))
  {
    DiscInfoRoundTrip(info, map[]);
  }

  /** `get_job`: no job, a job, or the validation error its row raises. */
  function GetJob(db: Database.Db, id: string): (r: Result<Option<Job>>)
    ensures Database.GetJob(db, id).None? ==> r == Ok(None)
  {
    match Database.GetJob(db, id)
    case None => Ok(None)
    case Some(row) =>
      var job :- RowToJob(row);
      Ok(Some(job))
  }

  /** `create_job`: number the rip within its day and insert it as a DVD job. */
  function CreateJob(db: Database.Db, outputBase: string, today: string, id: string, info: DiscInfo, now: string): (r: Result<(Database.Db, Job)>)
    ensures r.Err? <==> Database.GetJob(db, id).Some?
  {
    var path := OutputPath(outputBase, today, Database.NextSequence(db, today));
    var after :- Database.CreateJob(db, id, "dvd", DiscInfoDict(info), Some(path), now);
    NewRowToJob(id, info, path, now);
    Database.CreateThenGet(db, id, "dvd", DiscInfoDict(info), Some(path), now);
    Ok((after, NewJob(id).(discInfo := info, outputPath := Some(path), startedAt := Some(now))))
  }

  /** The created job is what `get_job` reads back: a detected DVD job with
      no progress whose output file carries the day's next sequence number,
      and the day's sequence moves on by one. */
  lemma CreateJobFacts(db: Database.Db, outputBase: string, today: string, id: string, info: DiscInfo, now: string)
    requires Database.GetJob(db, id).None?
    ensures var r := CreateJob(db, outputBase, today, id, info, now);
      && r.Ok?
      && GetJob(r.value.0, id) == Ok(Some(r.value.1))
      && r.value.1.sourceType == "dvd" && r.value.1.status == Detected && r.value.1.progress == 0
      && r.value.1.discInfo == info
      && r.value.1.outputPath == Some(OutputPath(outputBase, today, Database.NextSequence(db, today)))
      && Database.NextSequence(r.value.0, today) == Database.NextSequence(db, today) + 1
  {
    var path := OutputPath(outputBase, today, Database.NextSequence(db, today));
    NewRowToJob(id, info, path, now);
    Database.CreateThenGet(db, id, "dvd", DiscInfoDict(info), Some(path), now);
    OutputPathMentionsDate(outputBase, today, Database.NextSequence(db, today));
    Database.CreateAdvancesSequence(db, id, "dvd", DiscInfoDict(info), Some(path), now, today);
  }

  /** After an update that writes at least one column, the job's row is the
      old row overridden by the written columns. */
  lemma UpdatedRow(db: Database.Db, id: string, kwargs: map<string, Database.SqlValue>)
    requires Database.GetJob(db, id).Some?
    requires kwargs.Keys * Database.Updatable != {}
    ensures Database.GetJob(Database.UpdateJob(db, id, kwargs), id)
      == Some(Database.GetJob(db, id).value + Database.Writable(kwargs))
  {
    var fields := Database.Writable(kwargs);
    assert |fields| != 0 by {
      var c :| c in kwargs.Keys * Database.Updatable;
      assert c in fields;
    }
    var after := Database.UpdateJob(db, id, kwargs);
    assert after.jobs == Database.Patch(db.jobs, id, fields);
    assert "id" !in fields;
    var k := Database.FindJob(db.jobs, id).value;
    forall i | 0 <= i < |db.jobs|
      ensures Database.HasId(after.jobs[i], id) <==> Database.HasId(db.jobs[i], id)
    {
      assert Database.Col(after.jobs[i], "id") == Database.Col(db.jobs[i], "id");
    }
    FindSame(db.jobs, after.jobs, id, k);
  }

  lemma {:induction false} FindSame(rows: seq<Database.Row>, rows2: seq<Database.Row>, id: string, k: nat)
    requires |rows| == |rows2|
    requires forall i :: 0 <= i < |rows| ==> (Database.HasId(rows2[i], id) <==> Database.HasId(rows[i], id))
    requires Database.FindJob(rows, id) == Some(k)
    ensures Database.FindJob(rows2, id) == Some(k)
  {
    if Database.HasId(rows[0], id) {
    } else {
      assert forall i :: 0 <= i < |rows| - 1 ==> rows[1..][i] == rows[i + 1] && rows2[1..][i] == rows2[i + 1];
      FindSame(rows[1..], rows2[1..], id, k - 1);
    }
  }

  /** `mark_ripping`. */
  function MarkRipping(db: Database.Db, id: string): (r: (Database.Db, Result<Option<Job>>))
  {
    var after := Database.UpdateJob(db, id, map["status" := Database.SqlText("ripping")]);
    (after, GetJob(after, id))
  }

  /** `update_progress`: store the percentage, capped at 100. */
  function UpdateProgress(db: Database.Db, id: string, progress: int): (r: (Database.Db, Result<Option<Job>>))
  {
    var capped := if progress <= 100 then progress else 100;
    var after := Database.UpdateJob(db, id, map["progress" := Database.SqlInt(capped)]);
    (after, GetJob(after, id))
  }

  /** `mark_complete` at time `now`. */
  function MarkComplete(db: Database.Db, id: string, fileSize: int, now: string): (r: (Database.Db, Result<Option<Job>>))
  {
    var after := Database.UpdateJob(db, id, CompleteFields(fileSize, now));
    (after, GetJob(after, id))
  }

  function CompleteFields(fileSize: int, now: string): map<string, Database.SqlValue> {
    map[
      "status" := Database.SqlText("complete"),
      "progress" := Database.SqlInt(100),
      "file_size" := Database.SqlInt(fileSize),
      "completed_at" := Database.SqlText(now)]
  }

  /** Every column `mark_complete` writes may be updated, and writing them
      overrides exactly those four columns. */
  lemma CompleteFieldsFacts(c: Columns, fileSize: int, now: string)
    ensures "status" in CompleteFields(fileSize, now).Keys * Database.Updatable
    ensures Database.Writable(CompleteFields(fileSize, now)) == CompleteFields(fileSize, now)
    ensures Over(c, CompleteFields(fileSize, now))
      == c.(status := Database.SqlText(JobStatusName(Complete))).(progress := Database.SqlInt(100))
           .(fileSize := Database.SqlInt(fileSize)).(completedAt := Database.SqlText(now))
  {
  }

  /** `mark_failed` at time `now`. */
  function MarkFailed(db: Database.Db, id: string, error: string, now: string): (r: (Database.Db, Result<Option<Job>>))
  {
    var after := Database.UpdateJob(db, id, FailedFields(error, now));
    (after, GetJob(after, id))
  }

  function FailedFields(error: string, now: string): map<string, Database.SqlValue> {
    map[
      "status" := Database.SqlText("failed"),
      "error" := Database.SqlText(error),
      "completed_at" := Database.SqlText(now)]
  }

  /** Every column `mark_failed` writes may be updated, and writing them
      overrides exactly those three columns. */
  lemma FailedFieldsFacts(c: Columns, error: string, now: string)
    ensures "status" in FailedFields(error, now).Keys * Database.Updatable
    ensures Database.Writable(FailedFields(error, now)) == FailedFields(error, now)
    ensures Over(c, FailedFields(error, now))
      == c.(status := Database.SqlText(JobStatusName(Failed))).(error := Database.SqlText(error))
           .(completedAt := Database.SqlText(now))
  {
  }

  /** `mark_ripping` changes the job's status and nothing else. */
  lemma MarkRippingChangesStatus(db: Database.Db, id: string, job: Job)
    requires GetJob(db, id) == Ok(Some(job))
    ensures MarkRipping(db, id).1 == Ok(Some(job.(status := Ripping)))
  {
    var row := Database.GetJob(db, id).value;
    var fields := map["status" := Database.SqlText("ripping")];
    assert fields.Keys * Database.Updatable == {"status"};
    assert Database.Writable(fields) == fields;
    UpdatedRow(db, id, fields);
    ReadOverride(row, fields);
    assert Over(Read(row), fields) == Read(row).(status := Database.SqlText(JobStatusName(Ripping)));
    JobOfStatus(Read(row), job, Ripping);
  }

  /** `update_progress` stores at most 100 and changes nothing else. */
  lemma UpdateProgressCaps(db: Database.Db, id: string, job: Job, progress: int)
    requires GetJob(db, id) == Ok(Some(job))
    ensures UpdateProgress(db, id, progress).1 == Ok(Some(job.(progress := if progress <= 100 then progress else 100)))
  {
    var row := Database.GetJob(db, id).value;
    var capped := if progress <= 100 then progress else 100;
    var fields := map["progress" := Database.SqlInt(capped)];
    assert fields.Keys * Database.Updatable == {"progress"};
    assert Database.Writable(fields) == fields;
    UpdatedRow(db, id, fields);
    ReadOverride(row, fields);
    assert Over(Read(row), fields) == Read(row).(progress := Database.SqlInt(capped));
    JobOfProgress(Read(row), job, capped);
  }

  /** `mark_complete` sets the status, full progress, the size and the
      completion time, and nothing else. */
  lemma MarkCompleteFields(db: Database.Db, id: string, job: Job, fileSize: int, now: string)
    requires GetJob(db, id) == Ok(Some(job))
    ensures MarkComplete(db, id, fileSize, now).1
      == Ok(Some(job.(status := Complete, progress := 100, fileSize := Some(fileSize), completedAt := Some(now))))
  {
    var row := Database.GetJob(db, id).value;
    var fields := CompleteFields(fileSize, now);
    var c0 := Read(row);
    CompleteFieldsFacts(c0, fileSize, now);
    UpdatedRow(db, id, fields);
    ReadOverride(row, fields);
    var c1 := c0.(status := Database.SqlText(JobStatusName(Complete)));
    var c2 := c1.(progress := Database.SqlInt(100));
    var c3 := c2.(fileSize := Database.SqlInt(fileSize));
    var c4 := c3.(completedAt := Database.SqlText(now));
    JobOfStatus(c0, job, Complete);
    JobOfProgress(c1, job.(status := Complete), 100);
    JobOfFileSize(c2, job.(status := Complete, progress := 100), fileSize);
    JobOfCompletedAt(c3, job.(status := Complete, progress := 100, fileSize := Some(fileSize)), now);
  }

  /** `mark_failed` sets the status, the error and the completion time, and
      leaves the progress where it was. */
  lemma MarkFailedFields(db: Database.Db, id: string, job: Job, error: string, now: string)
    requires GetJob(db, id) == Ok(Some(job))
    ensures MarkFailed(db, id, error, now).1
      == Ok(Some(job.(status := Failed, error := Some(error), completedAt := Some(now))))
  {
    var row := Database.GetJob(db, id).value;
    var fields := FailedFields(error, now);
    var c0 := Read(row);
    FailedFieldsFacts(c0, error, now);
    UpdatedRow(db, id, fields);
    ReadOverride(row, fields);
    var c1 := c0.(status := Database.SqlText(JobStatusName(Failed)));
    var c2 := c1.(error := Database.SqlText(error));
    var c3 := c2.(completedAt := Database.SqlText(now));
    JobOfStatus(c0, job, Failed);
    JobOfError(c1, job.(status := Failed), error);
    JobOfCompletedAt(c2, job.(status := Failed, error := Some(error)), now);
  }

  /** `list_jobs`: the page's rows as jobs, or the first validation error. */
  function ListJobs(db: Database.Db, limit: int, offset: int): (r: Result<seq<Job>>)
    ensures r.Ok? ==> |r.value| == |Database.ListJobs(db, limit, offset, None)|
    ensures r.Ok? && limit >= 0 ==> |r.value| <= limit
  {
    RowsToJobs(Database.ListJobs(db, limit, offset, None))
  }

  function RowsToJobs(rows: seq<Database.Row>): (r: Result<seq<Job>>)
    ensures r.Ok? ==> |r.value| == |rows| && forall k :: 0 <= k < |rows| ==> RowToJob(rows[k]) == Ok(r.value[k])
    ensures r.Err? ==> exists k :: 0 <= k < |rows| && RowToJob(rows[k]).Err?
  {
    if rows == [] then Ok([])
    else
      var first :- RowToJob(rows[0]);
      var rest :- RowsToJobs(rows[1..]);
      assert forall k :: 1 <= k < |rows| ==> rows[k] == rows[1..][k - 1];
      Ok([first] + rest)
  }
}
