/** The back end's records and enumerations: job, drive and capture status,
    disc information, the job record and the persisted settings. */
module Models {
  import opened Wrappers
  import opened Json

  /** Life cycle of a rip job. */
  datatype JobStatus = Detected | Ripping | Complete | Failed

  /** State of the optical drive. */
  datatype DriveStatus = Empty | DiscDetected | DriveRipping

  /** State of the tape capture device. */
  datatype CaptureStatus = Idle | Recording

  /** The string each job status is stored and sent as. */
  function JobStatusName(s: JobStatus): (r: string)
    ensures ParseJobStatus(r) == Some(s)
  {
    match s
    case Detected => "detected"
    case Ripping => "ripping"
    case Complete => "complete"
    case Failed => "failed"
  }

  /** Reads a stored status string; exactly the four names are accepted. */
  function ParseJobStatus(name: string): (r: Option<JobStatus>)
    ensures r.Some? <==> name in {"detected", "ripping", "complete", "failed"}
  {
    if name == "detected" then Some(Detected)
    else if name == "ripping" then Some(Ripping)
    else if name == "complete" then Some(Complete)
    else if name == "failed" then Some(Failed)
    else None
  }

  /** The string each drive status is broadcast as. */
  function DriveStatusName(s: DriveStatus): (r: string)
    ensures ParseDriveStatus(r) == Some(s)
  {
    match s
    case Empty => "empty"
    case DiscDetected => "disc_detected"
    case DriveRipping => "ripping"
  }

  function ParseDriveStatus(name: string): (r: Option<DriveStatus>)
    ensures r.Some? <==> name in {"empty", "disc_detected", "ripping"}
  {
    if name == "empty" then Some(Empty)
    else if name == "disc_detected" then Some(DiscDetected)
    else if name == "ripping" then Some(DriveRipping)
    else None
  }

  /** The string each capture status is broadcast as. */
  function CaptureStatusName(s: CaptureStatus): (r: string)
    ensures ParseCaptureStatus(r) == Some(s)
  {
    match s
    case Idle => "idle"
    case Recording => "recording"
  }

  function ParseCaptureStatus(name: string): (r: Option<CaptureStatus>)
    ensures r.Some? <==> name in {"idle", "recording"}
  {
    if name == "idle" then Some(Idle)
    else if name == "recording" then Some(Recording)
    else None
  }

  /** What lsdvd reported about a disc. */
  datatype DiscInfo = DiscInfo(titleCount: int, mainTitle: int, duration: real)

  const DefaultDiscInfo := DiscInfo(0, 1, 0.0)

  /** One rip or capture attempt. */
  datatype Job = Job(
    id: string,
    sourceType: string,
    discInfo: DiscInfo,
    status: JobStatus,
    progress: int,
    outputPath: Option<string>,
    fileSize: Option<int>,
    startedAt: Option<string>,
    completedAt: Option<string>,
    error: Option<string>)

  /** A job record with every field but the id at its default. */
  function NewJob(id: string): Job {
    Job(id, "dvd", DefaultDiscInfo, Detected, 0, None, None, None, None, None)
  }

  /** Persisted operator settings. */
  datatype Settings = Settings(outputPath: string, namingPattern: string, autoEject: bool)

  const DefaultSettings := Settings("/output/dvd", "YYYY-MM-DD_rip_NNN", true)

  /** The job as `model_dump()` serialises it into a broadcast payload. */
  function JobToJson(j: Job): (v: JsValue)
    ensures v.Obj? && "id" in v.fields && v.fields["id"] == Str(j.id)
    ensures "status" in v.fields && v.fields["status"] == Str(JobStatusName(j.status))
  {
    Obj(map[
      "id" := Str(j.id),
      "source_type" := Str(j.sourceType),
      "disc_info" := Obj(map[
        "title_count" := Int(j.discInfo.titleCount),
        "main_title" := Int(j.discInfo.mainTitle),
        "duration" := Num(j.discInfo.duration)]),
      "status" := Str(JobStatusName(j.status)),
      "progress" := Int(j.progress),
      "output_path" := OptStr(j.outputPath),
      "file_size" := OptInt(j.fileSize),
      "started_at" := OptStr(j.startedAt),
      "completed_at" := OptStr(j.completedAt),
      "error" := OptStr(j.error)])
  }
}
