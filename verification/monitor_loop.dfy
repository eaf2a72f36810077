/** One pass of the back end's drive-monitor loop (backend/digitizer/main.py,
    `_monitor_loop`): poll the drive, and when a disc has just appeared, create
    a job, rip the disc, record the outcome and broadcast each step to the
    front end. The drive, the ripper, the clock and the file system are
    oracles: what the poll finds, the progress the rip reports and its result
    are given up front. */
module MonitorLoop {
  import opened Wrappers
  import opened Json
  import opened Models
  import Text
  import DriveMonitor
  import Database
  import JobManager
  import LiveState
  import Seqs

  /** What the outside world answers during one pass. */
  datatype Oracle = Oracle(
    seen: Option<DiscInfo>,     // what `check_disc` finds in the drive
    jobId: string,              // the id `create_job` draws
    today: string,              // the date that numbers the rip
    now: string,                // the time stamps the database and job manager take
    reports: seq<int>,          // the percentages the rip passes to `on_progress`, in order
    rip: Result<bool>,          // what `rip` returns, or what it raises before its first report
    outputSize: Option<nat>)    // the size of the output file, `None` when it does not exist

  /** `rip` returned true. It can also return false, or raise before it
      reports anything: creating the output directory or the temporary
      directory fails, or `dvdbackup` or `ffmpeg` cannot be launched. */
  predicate RipSucceeded(o: Oracle) {
    o.rip == Ok(true)
  }

  /** The state the loop carries from one pass to the next. */
  datatype Loop = Loop(monitor: DriveMonitor.Monitor, db: Database.Db)

  /** The outcome of one pass: the next state, the frames broadcast in order,
      whether the disc was ejected, and the exception the pass logged, if any.
      The loop carries on with `next` either way. */
  datatype Iteration = Iteration(next: Loop, sent: seq<Broadcast>, ejected: bool, error: Option<string>)

  /** The job manager as the loop calls it. Each call takes the database and
      returns it with the call's writes; the job it reads back is `Ok(None)`
      when the row is gone and `Err` when reading it raised. */
  datatype Manager = Manager(
    create: (Database.Db, DiscInfo) -> Result<(Database.Db, Job)>,
    markRipping: (Database.Db, string) -> (Database.Db, Result<Option<Job>>),
    updateProgress: (Database.Db, string, int) -> (Database.Db, Result<Option<Job>>),
    markComplete: (Database.Db, string, int) -> (Database.Db, Result<Option<Job>>),
    markFailed: (Database.Db, string, string) -> (Database.Db, Result<Option<Job>>))

  /** The job manager of backend/digitizer/jobs.py, numbering rips under
      `outputBase` and taking its id and clock readings from the oracle. */
  function Jobs(outputBase: string, o: Oracle): Manager {
    Manager(
      (db, info) => JobManager.CreateJob(db, outputBase, o.today, o.jobId, info, o.now),
      (db, id) => JobManager.MarkRipping(db, id),
      (db, id, pct) => JobManager.UpdateProgress(db, id, pct),
      (db, id, size) => JobManager.MarkComplete(db, id, size, o.now),
      (db, id, error) => JobManager.MarkFailed(db, id, error, o.now))
  }

  /** `create_app` building its job manager as written: it passes both the
      DVD and the VHS output base, and the constructor declares no
      `vhs_output_base`, so the call raises whatever the two paths are. */
  function AppJobManager(outputBase: string, vhsOutput: string): (r: Result<string>)
    ensures r.Err?
  {
    var kwargs := map["output_base" := outputBase, "vhs_output_base" := vhsOutput];
    assert "vhs_output_base" in kwargs && "vhs_output_base" !in JobManager.InitKeywords;
    JobManager.Construct(kwargs)
  }

  /** `create_app` building its job manager with only the keywords the
      constructor declares: the manager numbers rips under the DVD output
      base, which is the `outputBase` every pass of the loop is given. */
  function CorrectedAppJobManager(outputBase: string, vhsOutput: string): (r: Result<string>)
    ensures r == Ok(outputBase)
  {
    JobManager.Construct(map["output_base" := outputBase])
  }

  const RipFailedMessage := "FFmpeg rip failed"

  /** A message `{"event": event, "data": data}` sent to every client. */
  datatype Broadcast = Broadcast(event: string, data: JsValue)

  /** The frame a client decodes from a broadcast. */
  function ToFrame(b: Broadcast): JsValue {
    LiveState.Frame(b.event, b.data)
  }

  /** The frames a client decodes from broadcasts, in order. */
  function Frames(bs: seq<Broadcast>): (r: seq<JsValue>)
    ensures |r| == |bs|
    ensures forall k :: 0 <= k < |bs| ==> r[k] == ToFrame(bs[k])
  {
    seq(|bs|, k requires 0 <= k < |bs| => ToFrame(bs[k]))
  }

  /** A `drive_status` broadcast. */
  function StatusFrame(status: DriveStatus): Broadcast {
    Broadcast("drive_status", Obj(map["status" := Str(DriveStatusName(status))]))
  }

  /** A rip's `job_progress` broadcast. */
  function ProgressFrame(id: string, pct: int): Broadcast {
    Broadcast("job_progress", Obj(map["job_id" := Str(id), "progress" := Int(pct)]))
  }

  /** A `job_complete` or `job_failed` broadcast, whatever it carries. */
  predicate Terminal(b: Broadcast) {
    b.event == "job_complete" || b.event == "job_failed"
  }

  /** Broadcasts that close a pass: a terminal job broadcast, then `empty`. */
  predicate EndsIdle(sent: seq<Broadcast>) {
    |sent| >= 2 && Terminal(sent[|sent| - 2]) && sent[|sent| - 1] == StatusFrame(Empty)
  }

  /** `settings.get("auto_eject", True)` taken as a condition. */
  predicate AutoEject(settings: map<string, Database.Setting>) {
    "auto_eject" !in settings
    || match settings["auto_eject"]
       case SettingBool(b) => b
       case SettingText(s) => s != ""
  }

  /** The progress `update_progress` stores. */
  function Capped(pct: int): (r: int)
    ensures r <= 100 && r <= pct && (pct <= 100 ==> r == pct)
  {
    if pct <= 100 then pct else 100
  }

  datatype Progressed = Progressed(db: Database.Db, sent: seq<Broadcast>, error: Option<string>)

  /** The rip's `on_progress` callback applied to each report in turn: persist
      the percentage, then broadcast it. An exception from the job manager
      stops the rip before that report is broadcast. */
  function OnProgress(jm: Manager, db: Database.Db, id: string, reports: seq<int>): (r: Progressed)
    ensures |r.sent| <= |reports|
    ensures forall k :: 0 <= k < |r.sent| ==> r.sent[k] == ProgressFrame(id, reports[k])
    ensures r.error.None? ==> |r.sent| == |reports|
    decreases |reports|
  {
    if reports == [] then Progressed(db, [], None)
    else
      var (db1, stored) := jm.updateProgress(db, id, reports[0]);
      if stored.Err? then Progressed(db1, [], Some(stored.msg))
      else
        var rest := OnProgress(jm, db1, id, reports[1..]);
        Progressed(rest.db, [ProgressFrame(id, reports[0])] + rest.sent, rest.error)
  }

  datatype Concluded = Concluded(db: Database.Db, sent: seq<Broadcast>, ejected: bool, error: Option<string>)

  /** A job manager call whose result the loop dumps: `None` raises as well. */
  function Dumped(r: Result<Option<Job>>): Result<Job> {
    match r
    case Err(e) => Err(e)
    case Ok(None) => Err("AttributeError: 'NoneType' object has no attribute 'model_dump'")
    case Ok(Some(job)) => Ok(job)
  }

  /** What happens once the rip returns: mark the job complete or failed and
      broadcast it, and after a successful rip eject when the settings ask. */
  function Conclude(jm: Manager, db: Database.Db, id: string, o: Oracle): (r: Concluded)
    ensures r.error.None? ==> |r.sent| == 1 && Terminal(r.sent[0])
    ensures r.error.Some? ==> r.sent == [] && !r.ejected
    ensures r.ejected ==> RipSucceeded(o)
  {
    if RipSucceeded(o) then
      var size := if o.outputSize.Some? then o.outputSize.value else 0;
      var (db1, completed) := jm.markComplete(db, id, size);
      match Dumped(completed)
      case Err(e) => Concluded(db1, [], false, Some(e))
      case Ok(job) =>
        Concluded(db1, [Broadcast("job_complete", JobToJson(job))],
                  AutoEject(Database.GetSettings(db1)), None)
    else
      var (db1, failed) := jm.markFailed(db, id, RipFailedMessage);
      match Dumped(failed)
      case Err(e) => Concluded(db1, [], false, Some(e))
      case Ok(job) => Concluded(db1, [Broadcast("job_failed", JobToJson(job))], false, None)
  }

  /** `it` preceded by one more broadcast. */
  function Announce(frame: Broadcast, it: Iteration): (r: Iteration)
    ensures r.next == it.next && r.ejected == it.ejected && r.error == it.error
    ensures |r.sent| == |it.sent| + 1 && r.sent[0] == frame
    ensures |it.sent| >= 1 ==> r.sent[1] == it.sent[0]
    ensures |it.sent| >= 2 ==>
      r.sent[|r.sent| - 1] == it.sent[|it.sent| - 1] && r.sent[|r.sent| - 2] == it.sent[|it.sent| - 2]
  {
    it.(sent := [frame] + it.sent)
  }

  /** The rip: persist and broadcast each report, conclude the job, then set
      the monitor empty and broadcast it. A rip that raises does so before
      its first report, and the pass ends there. */
  function RipAndConclude(jm: Manager, m: DriveMonitor.Monitor, db: Database.Db, id: string, o: Oracle): (r: Iteration)
    ensures r.error.Some? ==> r.next.monitor == m && !r.ejected
    ensures r.error.None? ==>
      (&& r.next.monitor == DriveMonitor.Initial
       && |r.sent| >= 2
       && EndsIdle(r.sent))
    ensures r.ejected ==> RipSucceeded(o)
    ensures o.rip.Err? ==> r.error == Some(o.rip.msg) && r.sent == [] && r.next.db == db
  {
    if o.rip.Err? then Iteration(Loop(m, db), [], false, Some(o.rip.msg))
    else
      var p := OnProgress(jm, db, id, o.reports);
      if p.error.Some? then Iteration(Loop(m, p.db), p.sent, false, p.error)
      else
        var c := Conclude(jm, p.db, id, o);
        if c.error.Some? then Iteration(Loop(m, c.db), p.sent, false, c.error)
        else Iteration(Loop(DriveMonitor.SetEmpty(m), c.db), p.sent + c.sent + [StatusFrame(Empty)], c.ejected, None)
  }

  /** Once the job exists: set the monitor ripping and broadcast it, mark the
      job ripping, broadcast progress 0, and rip. */
  function StartRip(jm: Manager, m: DriveMonitor.Monitor, db: Database.Db, id: string, o: Oracle): (r: Iteration)
    ensures |r.sent| >= 1 && r.sent[0] == StatusFrame(DriveRipping)
    ensures r.error.Some? ==> r.next.monitor.discPresent == m.discPresent && !r.ejected
    ensures r.error.None? ==>
      (&& r.next.monitor == DriveMonitor.Initial
       && |r.sent| >= 4
       && EndsIdle(r.sent))
    ensures r.ejected ==> RipSucceeded(o)
  {
    var m1 := DriveMonitor.SetRipping(m);
    var (db1, marked) := jm.markRipping(db, id);
    if marked.Err? then Iteration(Loop(m1, db1), [StatusFrame(DriveRipping)], false, Some(marked.msg))
    else
      var inner := Announce(ProgressFrame(id, 0), RipAndConclude(jm, m1, db1, id, o));
      assert inner.error.None? ==> |inner.sent| >= 3;
      Announce(StatusFrame(DriveRipping), inner)
  }

  /** The body of the loop once a poll has reported a new disc: announce it,
      create the job, and rip. */
  function OnDisc(jm: Manager, m: DriveMonitor.Monitor, db: Database.Db, info: DiscInfo, o: Oracle): (r: Iteration)
    ensures |r.sent| >= 1 && r.sent[0] == StatusFrame(DiscDetected)
    ensures r.error.Some? ==> r.next.monitor.discPresent == m.discPresent && !r.ejected
    ensures r.error.None? ==>
      (&& r.next.monitor == DriveMonitor.Initial
       && |r.sent| >= 5
       && EndsIdle(r.sent))
    ensures r.ejected ==> RipSucceeded(o)
  {
    match jm.create(db, info)
    case Err(e) => Iteration(Loop(m, db), [StatusFrame(DiscDetected)], false, Some(e))
    case Ok((db1, job)) => Announce(StatusFrame(DiscDetected), StartRip(jm, m, db1, job.id, o))
  }

  /** One pass of `_monitor_loop`. A poll that reports no new disc broadcasts
      nothing and leaves the database alone; a new disc is announced first;
      a pass that raised leaves the disc counted as present; one that raised
      nothing ends with the job's terminal broadcast, then `empty`, and the
      monitor re-armed. */
  function Iterate(jm: Manager, l: Loop, o: Oracle): (r: Iteration)
    ensures r.sent == [] <==> !(o.seen.Some? && !l.monitor.discPresent)
    ensures r.sent == [] ==> r.next.db == l.db && r.error.None? && !r.ejected
    ensures r.sent != [] ==> r.sent[0] == StatusFrame(DiscDetected)
    ensures r.sent != [] && r.error.Some? ==> r.next.monitor.discPresent && !r.ejected
    ensures r.sent != [] && r.error.None? ==>
      (&& r.next.monitor == DriveMonitor.Initial
       && |r.sent| >= 5
       && EndsIdle(r.sent))
    ensures r.ejected ==> RipSucceeded(o)
  {
    var polled := DriveMonitor.PollOnce(l.monitor, o.seen);
    if polled.1.info.None? || polled.1.status != DiscDetected then
      assert !(o.seen.Some? && !l.monitor.discPresent);
      Iteration(Loop(polled.0, l.db), [], false, None)
    else
      assert polled.0.discPresent;
      OnDisc(jm, polled.0, l.db, polled.1.info.value, o)
  }

  /** The progress a job holds after `update_progress` ran for each report. */
  function LastProgress(progress: int, reports: seq<int>): int {
    if reports == [] then progress else Capped(reports[|reports| - 1])
  }

  /** One `job_progress` broadcast per report, in order. */
  function ProgressFrames(id: string, reports: seq<int>): (r: seq<Broadcast>)
    ensures |r| == |reports|
    ensures forall k :: 0 <= k < |reports| ==> r[k] == ProgressFrame(id, reports[k])
  {
    seq(|reports|, k requires 0 <= k < |reports| => ProgressFrame(id, reports[k]))
  }

  /** With the job manager of jobs.py and the job readable, every report is
      persisted (capped at 100) and broadcast unchanged, and nothing raises. */
  lemma {:induction false} ProgressPersisted(outputBase: string, o: Oracle, db: Database.Db, id: string, job: Job, reports: seq<int>)
    requires JobManager.GetJob(db, id) == Ok(Some(job))
    ensures var p := OnProgress(Jobs(outputBase, o), db, id, reports);
      && p.error.None?
      && p.sent == ProgressFrames(id, reports)
      && p.db.settings == db.settings
      && JobManager.GetJob(p.db, id) == Ok(Some(job.(progress := LastProgress(job.progress, reports))))
    decreases |reports|
  {
    if reports != [] {
      var jm := Jobs(outputBase, o);
      ProgressStep(outputBase, o, db, id, job, reports[0]);
      var (db1, stored) := jm.updateProgress(db, id, reports[0]);
      var job1 := job.(progress := Capped(reports[0]));
      ProgressPersisted(outputBase, o, db1, id, job1, reports[1..]);
      ProgressFramesCons(id, reports);
      LastProgressCons(job.progress, reports);
    }
  }

  /** One stored report: the job now holds the capped value and the
      settings are untouched. */
  lemma ProgressStep(outputBase: string, o: Oracle, db: Database.Db, id: string, job: Job, report: int)
    requires JobManager.GetJob(db, id) == Ok(Some(job))
    ensures var (db1, stored) := Jobs(outputBase, o).updateProgress(db, id, report);
      && stored.Ok?
      && db1.settings == db.settings
      && JobManager.GetJob(db1, id) == Ok(Some(job.(progress := Capped(report))))
  {
    JobManager.UpdateProgressCaps(db, id, job, report);
    assert Jobs(outputBase, o).updateProgress(db, id, report) == JobManager.UpdateProgress(db, id, report);
  }

  lemma ProgressFramesCons(id: string, reports: seq<int>)
    requires reports != []
    ensures ProgressFrames(id, reports) == [ProgressFrame(id, reports[0])] + ProgressFrames(id, reports[1..])
  {
  }

  lemma LastProgressCons(progress: int, reports: seq<int>)
    requires reports != []
    ensures LastProgress(progress, reports) == LastProgress(Capped(reports[0]), reports[1..])
  {
    if |reports| > 1 {
      assert reports[1..][|reports[1..]| - 1] == reports[|reports| - 1];
    }
  }

  /** The job as the terminal broadcast carries it: complete, at 100, with
      the output file's size (0 when it is missing), or failed with the fixed
      message and its progress kept; stamped `now` either way. */
  function Finished(job: Job, o: Oracle): Job {
    if RipSucceeded(o) then
      job.(status := Complete, progress := 100,
           fileSize := Some(if o.outputSize.Some? then o.outputSize.value else 0),
           completedAt := Some(o.now))
    else job.(status := Failed, error := Some(RipFailedMessage), completedAt := Some(o.now))
  }

  /** The broadcast that reports the finished job. */
  function TerminalFrame(job: Job, o: Oracle): (f: Broadcast)
    ensures Terminal(f)
  {
    Broadcast(if RipSucceeded(o) then "job_complete" else "job_failed", JobToJson(job))
  }

  /** With the job manager of jobs.py, concluding a readable job raises
      nothing, stores and broadcasts the finished job, and ejects exactly
      when the rip succeeded and the settings ask for it. */
  lemma ConcludeReadable(outputBase: string, o: Oracle, db: Database.Db, id: string, job: Job)
    requires JobManager.GetJob(db, id) == Ok(Some(job))
    ensures var c := Conclude(Jobs(outputBase, o), db, id, o);
      && c.error.None?
      && c.sent == [TerminalFrame(Finished(job, o), o)]
      && JobManager.GetJob(c.db, id) == Ok(Some(Finished(job, o)))
      && (c.ejected <==> RipSucceeded(o) && AutoEject(Database.GetSettings(db)))
  {
    var size := if o.outputSize.Some? then o.outputSize.value else 0;
    if RipSucceeded(o) {
      JobManager.MarkCompleteFields(db, id, job, size, o.now);
    } else {
      JobManager.MarkFailedFields(db, id, job, RipFailedMessage, o.now);
    }
  }

  lemma RipAndConcludeRuns(outputBase: string, o: Oracle, m: DriveMonitor.Monitor, db: Database.Db, id: string, job: Job)
    requires JobManager.GetJob(db, id) == Ok(Some(job))
    ensures var r := RipAndConclude(Jobs(outputBase, o), m, db, id, o);
      var done := Finished(job.(progress := LastProgress(job.progress, o.reports)), o);
      o.rip.Ok? ==>
        && r.error.None?
        && r.sent == ProgressFrames(id, o.reports) + [TerminalFrame(done, o), StatusFrame(Empty)]
        && JobManager.GetJob(r.next.db, id) == Ok(Some(done))
    ensures var r := RipAndConclude(Jobs(outputBase, o), m, db, id, o);
      o.rip.Err? ==>
        && r.error == Some(o.rip.msg)
        && r.sent == []
        && r.next.monitor == m
        && JobManager.GetJob(r.next.db, id) == Ok(Some(job))
  {
    if o.rip.Ok? {
      var jm := Jobs(outputBase, o);
      ProgressPersisted(outputBase, o, db, id, job, o.reports);
      var p := OnProgress(jm, db, id, o.reports);
      var job1 := job.(progress := LastProgress(job.progress, o.reports));
      ConcludeReadable(outputBase, o, p.db, id, job1);
      RipAndConcludeUnfold(jm, m, db, id, o);
      Seqs.AppendTwo(p.sent, TerminalFrame(Finished(job1, o), o), StatusFrame(Empty));
    }
  }

  /** The pass ejects the disc exactly when the rip succeeded and the
      settings ask for it. */
  lemma RipAndConcludeEjects(outputBase: string, o: Oracle, m: DriveMonitor.Monitor, db: Database.Db, id: string, job: Job)
    requires JobManager.GetJob(db, id) == Ok(Some(job))
    ensures var r := RipAndConclude(Jobs(outputBase, o), m, db, id, o);
      r.ejected <==> RipSucceeded(o) && AutoEject(Database.GetSettings(db))
  {
    if o.rip.Ok? {
      var jm := Jobs(outputBase, o);
      ProgressPersisted(outputBase, o, db, id, job, o.reports);
      var p := OnProgress(jm, db, id, o.reports);
      ConcludeReadable(outputBase, o, p.db, id, job.(progress := LastProgress(job.progress, o.reports)));
      RipAndConcludeUnfold(jm, m, db, id, o);
      SameSettingsSameEject(p.db, db);
    }
  }

  lemma SameSettingsSameEject(a: Database.Db, b: Database.Db)
    requires a.settings == b.settings
    ensures AutoEject(Database.GetSettings(a)) == AutoEject(Database.GetSettings(b))
  {
    assert Database.GetSettings(a) == Database.GetSettings(b);
  }

  lemma RipAndConcludeUnfold(jm: Manager, m: DriveMonitor.Monitor, db: Database.Db, id: string, o: Oracle)
    requires o.rip.Ok?
    requires OnProgress(jm, db, id, o.reports).error.None?
    requires Conclude(jm, OnProgress(jm, db, id, o.reports).db, id, o).error.None?
    ensures var p := OnProgress(jm, db, id, o.reports);
      var c := Conclude(jm, p.db, id, o);
      RipAndConclude(jm, m, db, id, o)
        == Iteration(Loop(DriveMonitor.SetEmpty(m), c.db), p.sent + c.sent + [StatusFrame(Empty)], c.ejected, None)
  {
  }

  lemma StartRipRuns(outputBase: string, o: Oracle, m: DriveMonitor.Monitor, db: Database.Db, id: string, job: Job)
    requires JobManager.GetJob(db, id) == Ok(Some(job))
    ensures var r := StartRip(Jobs(outputBase, o), m, db, id, o);
      var done := Finished(job.(status := Ripping, progress := LastProgress(job.progress, o.reports)), o);
      o.rip.Ok? ==>
        && r.error.None?
        && r.sent == [StatusFrame(DriveRipping), ProgressFrame(id, 0)] + ProgressFrames(id, o.reports)
                     + [TerminalFrame(done, o), StatusFrame(Empty)]
        && JobManager.GetJob(r.next.db, id) == Ok(Some(done))
    ensures var r := StartRip(Jobs(outputBase, o), m, db, id, o);
      o.rip.Err? ==>
        && r.error == Some(o.rip.msg)
        && r.sent == [StatusFrame(DriveRipping), ProgressFrame(id, 0)]
        && r.next.monitor == DriveMonitor.SetRipping(m)
        && JobManager.GetJob(r.next.db, id) == Ok(Some(job.(status := Ripping)))
    ensures var r := StartRip(Jobs(outputBase, o), m, db, id, o);
      r.ejected <==> RipSucceeded(o) && AutoEject(Database.GetSettings(db))
  {
    var jm := Jobs(outputBase, o);
    JobManager.MarkRippingChangesStatus(db, id, job);
    var (db1, marked) := JobManager.MarkRipping(db, id);
    assert jm.markRipping(db, id) == (db1, marked);
    assert marked == Ok(Some(job.(status := Ripping)));
    assert db1.settings == db.settings;
    var m1 := DriveMonitor.SetRipping(m);
    var ripping := job.(status := Ripping);
    RipAndConcludeRuns(outputBase, o, m1, db1, id, ripping);
    RipAndConcludeEjects(outputBase, o, m1, db1, id, ripping);
    var inner := RipAndConclude(jm, m1, db1, id, o);
    assert StartRip(jm, m, db, id, o) == Announce(StatusFrame(DriveRipping), Announce(ProgressFrame(id, 0), inner));
    if o.rip.Ok? {
      var done := Finished(ripping.(progress := LastProgress(ripping.progress, o.reports)), o);
      assert inner.sent == ProgressFrames(id, o.reports) + [TerminalFrame(done, o), StatusFrame(Empty)];
      Seqs.ConsTwo(StatusFrame(DriveRipping), ProgressFrame(id, 0), ProgressFrames(id, o.reports),
              TerminalFrame(done, o), StatusFrame(Empty));
    }
  }

  /** The job `create_job` records for a disc. */
  function CreatedJob(db: Database.Db, o: Oracle, info: DiscInfo, outputBase: string): Job {
    Job(o.jobId, "dvd", info, Detected, 0,
        Some(JobManager.OutputPath(outputBase, o.today, Database.NextSequence(db, o.today))),
        None, Some(o.now), None, None)
  }

  /** With the job manager of jobs.py, a pass that finds a new disc whose job
      id is not taken runs to the end when the rip returns: it broadcasts
      `disc_detected`, `ripping`, progress 0, each rip report, the finished
      job and `empty`, in that order, and leaves the finished job in the
      database and the monitor re-armed. When the rip raises, the pass stops
      after the opening broadcasts with the job and the drive left `ripping`.
      Either way it ejects exactly when the rip succeeded and the settings
      ask for it. */
  lemma DetectionRuns(l: Loop, o: Oracle, outputBase: string)
    requires o.seen.Some? && !l.monitor.discPresent
    requires Database.GetJob(l.db, o.jobId).None?
    ensures var r := Iterate(Jobs(outputBase, o), l, o);
      o.rip.Ok? ==> RanPass(r, o, CreatedJob(l.db, o, o.seen.value, outputBase))
    ensures var r := Iterate(Jobs(outputBase, o), l, o);
      o.rip.Err? ==> RipRaisedPass(r, o, CreatedJob(l.db, o, o.seen.value, outputBase))
    ensures var r := Iterate(Jobs(outputBase, o), l, o);
      r.ejected <==> RipSucceeded(o) && AutoEject(Database.GetSettings(l.db))
  {
    var db1, job := DetectionUnfold(l, o, outputBase);
    StartRipRuns(outputBase, o, DriveMonitor.Monitor(DiscDetected, true), db1, o.jobId, job);
    if o.rip.Ok? {
      DetectionRan(l, o, outputBase, db1, job);
    }
  }

  /** A pass that ran to the end: the opening broadcasts, each rip report,
      the finished job and `empty`, with the finished job stored and the
      monitor re-armed. */
  predicate RanPass(r: Iteration, o: Oracle, created: Job) {
    var done := Finished(created.(status := Ripping, progress := LastProgress(0, o.reports)), o);
    && r.error.None?
    && r.next.monitor == DriveMonitor.Initial
    && r.sent == [StatusFrame(DiscDetected), StatusFrame(DriveRipping), ProgressFrame(o.jobId, 0)]
                 + ProgressFrames(o.jobId, o.reports)
                 + [TerminalFrame(done, o), StatusFrame(Empty)]
    && JobManager.GetJob(r.next.db, o.jobId) == Ok(Some(done))
  }

  lemma DetectionRan(l: Loop, o: Oracle, outputBase: string, db1: Database.Db, job: Job)
    requires o.seen.Some? && !l.monitor.discPresent && o.rip.Ok?
    requires job == CreatedJob(l.db, o, o.seen.value, outputBase) && job.id == o.jobId
    requires JobManager.GetJob(db1, o.jobId) == Ok(Some(job))
    requires Iterate(Jobs(outputBase, o), l, o)
      == Announce(StatusFrame(DiscDetected), StartRip(Jobs(outputBase, o), DriveMonitor.Monitor(DiscDetected, true), db1, o.jobId, o))
    ensures RanPass(Iterate(Jobs(outputBase, o), l, o), o, job)
  {
    StartRipRuns(outputBase, o, DriveMonitor.Monitor(DiscDetected, true), db1, o.jobId, job);
    var done := Finished(job.(status := Ripping, progress := LastProgress(0, o.reports)), o);
    Seqs.ConsThree(StatusFrame(DiscDetected), StatusFrame(DriveRipping), ProgressFrame(o.jobId, 0),
             ProgressFrames(o.jobId, o.reports), TerminalFrame(done, o), StatusFrame(Empty));
  }

  /** A pass that finds a new disc announces it and creates the job, then
      goes on as `StartRip` from the created row. */
  lemma DetectionUnfold(l: Loop, o: Oracle, outputBase: string) returns (db1: Database.Db, job: Job)
    requires o.seen.Some? && !l.monitor.discPresent
    requires Database.GetJob(l.db, o.jobId).None?
    ensures job == CreatedJob(l.db, o, o.seen.value, outputBase) && job.id == o.jobId
    ensures db1.settings == l.db.settings
    ensures JobManager.GetJob(db1, o.jobId) == Ok(Some(job))
    ensures Iterate(Jobs(outputBase, o), l, o)
      == Announce(StatusFrame(DiscDetected), StartRip(Jobs(outputBase, o), DriveMonitor.Monitor(DiscDetected, true), db1, o.jobId, o))
  {
    var jm := Jobs(outputBase, o);
    var info := o.seen.value;
    var m1 := DriveMonitor.Monitor(DiscDetected, true);
    assert DriveMonitor.PollOnce(l.monitor, o.seen) == (m1, DriveMonitor.Poll(DiscDetected, o.seen));
    assert Iterate(jm, l, o) == OnDisc(jm, m1, l.db, info, o);
    JobManager.CreateJobFacts(l.db, outputBase, o.today, o.jobId, info, o.now);
    var created := JobManager.CreateJob(l.db, outputBase, o.today, o.jobId, info, o.now);
    assert jm.create(l.db, info) == created;
    db1, job := created.value.0, created.value.1;
    assert OnDisc(jm, m1, l.db, info, o) == Announce(StatusFrame(DiscDetected), StartRip(jm, m1, db1, job.id, o));
  }

  /** A pass whose rip raised, as main.py leaves it once the exception is
      logged: the opening three broadcasts and nothing after them, the job
      still `ripping` in the database, the drive still `ripping` with the
      disc claimed, and no eject. */
  predicate RipRaisedPass(r: Iteration, o: Oracle, created: Job) {
    && o.rip.Err?
    && r.error == Some(o.rip.msg)
    && r.sent == [StatusFrame(DiscDetected), StatusFrame(DriveRipping), ProgressFrame(o.jobId, 0)]
    && r.next.monitor == DriveMonitor.Monitor(DriveRipping, true)
    && JobManager.GetJob(r.next.db, o.jobId) == Ok(Some(created.(status := Ripping)))
    && !r.ejected
  }

  /** A duplicate job id makes `create_job` raise right after the
      announcement: nothing else is broadcast and the database is unchanged. */
  lemma DuplicateIdRaises(l: Loop, o: Oracle, outputBase: string)
    requires o.seen.Some? && !l.monitor.discPresent
    requires Database.GetJob(l.db, o.jobId).Some?
    ensures var r := Iterate(Jobs(outputBase, o), l, o);
      && r.error == Some("UNIQUE constraint failed: jobs.id")
      && r.sent == [StatusFrame(DiscDetected)]
      && r.next.db == l.db
  {
  }

  /** For any job manager, a pass that raised leaves the disc counted as
      present, so while it stays in the drive later polls announce nothing
      and no new rip starts. */
  lemma ErrorKeepsDiscClaimed(jm: Manager, l: Loop, o: Oracle, later: Oracle)
    requires Iterate(jm, l, o).error.Some?
    requires later.seen.Some?
    ensures Iterate(jm, Iterate(jm, l, o).next, later).sent == []
  {
  }

  /** For any job manager, after a pass that ran to the end the monitor is
      re-armed: if the disc is still in the drive (no eject, or one that
      failed), the next poll announces it again. */
  lemma RearmedAfterRun(jm: Manager, l: Loop, o: Oracle, later: Oracle)
    requires Iterate(jm, l, o).error.None? && Iterate(jm, l, o).sent != []
    requires later.seen.Some?
    ensures Iterate(jm, Iterate(jm, l, o).next, later).sent != []
  {
  }

  /** With `auto_eject` written as a boolean the eject decision is that
      boolean; with no `auto_eject` setting at all it is to eject. */
  lemma AutoEjectSetting(db: Database.Db, b: bool)
    ensures AutoEject(Database.GetSettings(Database.UpdateSettings(db, map["auto_eject" := Database.PyBool(b)]))) == b
    ensures "auto_eject" !in db.settings ==> AutoEject(Database.GetSettings(db))
  {
    Database.SettingsRoundTrip(db, map["auto_eject" := Database.PyBool(b)], "auto_eject");
  }

  /** The front end's view of a rip's progress frame: it is a rip update (it
      has no `elapsed`), so it sets the active job and progress only. */
  lemma ProgressFrameIsRipUpdate(s: LiveState.State, id: string, pct: int)
    ensures LiveState.OnMessage(s, Some(ToFrame(ProgressFrame(id, pct))))
      == s.(activeJobId := Str(id), activeJobProgress := Int(pct))
  {
    LiveState.RipProgressValues(s, map["job_id" := Str(id), "progress" := Int(pct)]);
  }

  /** The front end's view of a `drive_status` frame: it sets the drive status only. */
  lemma StatusFrameSetsDrive(s: LiveState.State, status: DriveStatus)
    ensures LiveState.OnMessage(s, Some(ToFrame(StatusFrame(status)))) == s.(driveStatus := Str(DriveStatusName(status)))
  {
    LiveState.FrameHandled(s, "drive_status", Obj(map["status" := Str(DriveStatusName(status))]));
  }

  /** Any broadcasts ending with a terminal job broadcast and `empty` leave
      the reducer with no active job, progress 0 and the drive empty. */
  lemma ReduceEndsIdle(s: LiveState.State, sent: seq<Broadcast>)
    requires EndsIdle(sent)
    ensures var after := LiveState.Reduce(s, Frames(sent));
      && after.activeJobId == Null
      && after.activeJobProgress == Num(0.0)
      && after.driveStatus == Str("empty")
      && after.connected == s.connected
  {
    var frames := Frames(sent);
    var n := |frames|;
    var prefix := frames[..n - 2];
    var terminal := frames[n - 2];
    var last := frames[n - 1];
    assert frames == prefix + [terminal] + [last];
    LiveState.ReduceAppend(s, prefix + [terminal], [last]);
    LiveState.ReduceAppend(s, prefix, [terminal]);
    var before := LiveState.Reduce(s, prefix);
    LiveState.ReduceKeepsConnected(s, prefix);
    LiveState.TerminalJobValues(before, sent[n - 2].data);
    var ended := LiveState.OnMessage(before, Some(terminal));
    assert LiveState.Reduce(before, [terminal]) == ended;
    StatusFrameSetsDrive(ended, Empty);
    assert LiveState.Reduce(ended, [last]) == LiveState.OnMessage(ended, Some(last));
  }

  /** For any job manager, feeding a pass's broadcasts to the front end's
      reducer, from any state, ends with no active job, progress 0 and the
      drive `empty`, whenever the pass raised nothing. */
  lemma FrontEndIdleAfterRun(s: LiveState.State, jm: Manager, l: Loop, o: Oracle)
    requires Iterate(jm, l, o).error.None? && Iterate(jm, l, o).sent != []
    ensures var after := LiveState.Reduce(s, Frames(Iterate(jm, l, o).sent));
      && after.activeJobId == Null
      && after.activeJobProgress == Num(0.0)
      && after.driveStatus == Str("empty")
      && after.connected == s.connected
  {
    ReduceEndsIdle(s, Iterate(jm, l, o).sent);
  }

  /** The opening broadcasts of a pass show the drive ripping and the new
      job active at 0 percent. */
  lemma ReduceOpening(s: LiveState.State, id: string)
    ensures var after := LiveState.Reduce(s, Frames([StatusFrame(DiscDetected), StatusFrame(DriveRipping), ProgressFrame(id, 0)]));
      && after.driveStatus == Str("ripping")
      && after.activeJobId == Str(id)
      && after.activeJobProgress == Num(0.0)
  {
    var bs := [StatusFrame(DiscDetected), StatusFrame(DriveRipping), ProgressFrame(id, 0)];
    var a, b, c := ToFrame(bs[0]), ToFrame(bs[1]), ToFrame(bs[2]);
    assert Frames(bs) == [a, b, c];
    ReduceThree(s, a, b, c);
    StatusFrameSetsDrive(s, DiscDetected);
    var s1 := LiveState.OnMessage(s, Some(a));
    StatusFrameSetsDrive(s1, DriveRipping);
    var s2 := LiveState.OnMessage(s1, Some(b));
    ProgressFrameIsRipUpdate(s2, id, 0);
  }

  /** Three frames are handled one after another. */
  lemma ReduceThree(s: LiveState.State, a: JsValue, b: JsValue, c: JsValue)
    ensures LiveState.Reduce(s, [a, b, c])
      == LiveState.OnMessage(LiveState.OnMessage(LiveState.OnMessage(s, Some(a)), Some(b)), Some(c))
  {
    var s1 := LiveState.OnMessage(s, Some(a));
    var s2 := LiveState.OnMessage(s1, Some(b));
    assert [a, b, c][1..] == [b, c] && [b, c][1..] == [c] && [c][1..] == [];
    assert LiveState.Reduce(s2, [c]) == LiveState.Reduce(LiveState.OnMessage(s2, Some(c)), []);
  }

  /** With the job manager of jobs.py, the front end shows the drive ripping
      and the new job at 0 percent once the pass's first three broadcasts
      have arrived. */
  lemma FrontEndRippingAfterStart(s: LiveState.State, l: Loop, o: Oracle, outputBase: string)
    requires o.seen.Some? && !l.monitor.discPresent
    requires Database.GetJob(l.db, o.jobId).None?
    ensures var sent := Iterate(Jobs(outputBase, o), l, o).sent;
      && |sent| >= 3
      && LiveState.Reduce(s, Frames(sent[..3])).driveStatus == Str("ripping")
      && LiveState.Reduce(s, Frames(sent[..3])).activeJobId == Str(o.jobId)
      && LiveState.Reduce(s, Frames(sent[..3])).activeJobProgress == Num(0.0)
  {
    DetectionOpens(l, o, outputBase);
    ReduceOpening(s, o.jobId);
  }

  /** Whatever the rip does, a pass that finds a new disc with a free job id
      starts with `disc_detected`, `ripping` and progress 0. */
  lemma DetectionOpens(l: Loop, o: Oracle, outputBase: string)
    requires o.seen.Some? && !l.monitor.discPresent
    requires Database.GetJob(l.db, o.jobId).None?
    ensures var sent := Iterate(Jobs(outputBase, o), l, o).sent;
      |sent| >= 3 && sent[..3] == [StatusFrame(DiscDetected), StatusFrame(DriveRipping), ProgressFrame(o.jobId, 0)]
  {
    var db1, job := DetectionUnfold(l, o, outputBase);
    StartRipOpens(outputBase, o, DriveMonitor.Monitor(DiscDetected, true), db1, o.jobId, job);
    var inner := StartRip(Jobs(outputBase, o), DriveMonitor.Monitor(DiscDetected, true), db1, o.jobId, o);
    var sent := Iterate(Jobs(outputBase, o), l, o).sent;
    assert sent[0] == StatusFrame(DiscDetected);
    assert sent[1] == inner.sent[0] && sent[2] == inner.sent[1];
  }

  /** Whatever the rip does, a readable job gets `ripping` and progress 0
      broadcast first. */
  lemma StartRipOpens(outputBase: string, o: Oracle, m: DriveMonitor.Monitor, db: Database.Db, id: string, job: Job)
    requires JobManager.GetJob(db, id) == Ok(Some(job))
    ensures var r := StartRip(Jobs(outputBase, o), m, db, id, o);
      |r.sent| >= 2 && r.sent[0] == StatusFrame(DriveRipping) && r.sent[1] == ProgressFrame(id, 0)
  {
    var jm := Jobs(outputBase, o);
    JobManager.MarkRippingChangesStatus(db, id, job);
    var db1 := jm.markRipping(db, id).0;
    var inner := Announce(ProgressFrame(id, 0), RipAndConclude(jm, DriveMonitor.SetRipping(m), db1, id, o));
    assert StartRip(jm, m, db, id, o) == Announce(StatusFrame(DriveRipping), inner);
  }

  /** With the job manager of jobs.py, a rip that raises leaves the front end
      showing the drive ripping the job at 0 percent after the whole pass,
      while the job stays `ripping` in the database; and as long as the disc
      stays in the drive the next pass broadcasts nothing that could change it. */
  lemma FrontEndStuckAfterRipRaises(s: LiveState.State, l: Loop, o: Oracle, outputBase: string, later: Oracle)
    requires o.seen.Some? && !l.monitor.discPresent
    requires Database.GetJob(l.db, o.jobId).None?
    requires o.rip.Err? && later.seen.Some?
    ensures var r := Iterate(Jobs(outputBase, o), l, o);
      && LiveState.Reduce(s, Frames(r.sent)).driveStatus == Str("ripping")
      && LiveState.Reduce(s, Frames(r.sent)).activeJobId == Str(o.jobId)
      && JobManager.GetJob(r.next.db, o.jobId).Ok?
      && JobManager.GetJob(r.next.db, o.jobId).value.Some?
      && JobManager.GetJob(r.next.db, o.jobId).value.value.status == Ripping
      && Iterate(Jobs(outputBase, later), r.next, later).sent == []
  {
    DetectionRuns(l, o, outputBase);
    ReduceOpening(s, o.jobId);
    ErrorKeepsDiscClaimed(Jobs(outputBase, o), l, o, later);
  }
}
