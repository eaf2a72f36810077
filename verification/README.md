# Digitizer core in Dafny

Digitizer rips DVDs and records VHS tapes into MP4 files. It also cuts a recording into scenes. A Python back end does the work and pushes live status frames over a WebSocket to a Next.js front end. This project models the logic of both ends as pure Dafny functions over immutable datatypes and proves what the code promises.

Back end:

- `DriveMonitor` (drive_monitor.py): parsing `lsdvd` output and the edge-triggered disc-presence machine.
- `FfmpegTime`, `Ripper` and `Capture` (ripper.py, capture.py): reading ffmpeg's `time=` progress lines, the progress percentage, the ffmpeg command lines, and the capture start/stop guard.
- `SceneDetector` and `Splitter` (scene_detector.py, splitter.py): merging short scenes, numbering and thumbnail times, progress reports, and cutting each scene with an exit-code oracle.
- `Database` and `JobManager` (db.py, jobs.py): the SQLite tables as an in-memory sequence of rows plus a settings map, and the job life cycle on top of them.
- `Models` (models.py): the enums, the defaults and the JSON dump of a job.
- `MonitorLoop` (main.py): one pass of `_monitor_loop`, with the drive, the ripper and the clock as an oracle.

Front end:

- `LiveState` and `Channel` (digitizer-context.tsx): the message reducer, plus the reconnect backoff and teardown. `Channel` hands each message to the corrected reducer `LiveState.OnMessage` (see Findings), not to the as-written `LiveState.OnMessageAsWritten`.
- `ApiClient` (api.ts): request error mapping and URL builders.
- UI helpers:
  - `SceneCard` (scene-card.tsx): the adjust editor, the thumbnail URL and Delete visibility;
  - `SceneTimeline` (scene-timeline.tsx): segment widths, cut markers and labels;
  - `CaptureCard` (vhs-capture-card.tsx): `formatElapsed`, and the Start/Stop handlers' `try`/`catch`/`finally` with the loading flag;
  - `ActiveJobPanel` (active-job-panel.tsx): the idle condition, the elapsed timer, the time string and the job-id abbreviation;
  - `JobsPage` (jobs/page.tsx): pagination.
- `Clock`: the split into hours, minutes and seconds with JavaScript's `%`.

Generic helpers live in `Wrappers`, `Text`, `Json` and `CommandLine`.

Cross-component results connect the two ends. `MonitorLoop.FrontEndIdleAfterRun` feeds the broadcasts of a whole rip pass into the front-end reducer. After them, the active job is cleared and the drive reads `empty`. `ActiveJobPanel.IdleAfterRun` shows the panel then returns to its placeholder. `MonitorLoop.FrontEndRippingAfterStart` and `ActiveJobPanel.ActiveAfterStart` show that the opening broadcasts make the panel show the new job.

Parameters stand in for the outside world:

- the current time, uuids and file sizes;
- the exit codes of `lsdvd`, `ffmpeg`, `dvdbackup` and `eject`;
- whether `rip` returns true, returns false or raises (a directory it cannot create, a program it cannot launch);
- the lines ffmpeg writes;
- the scene list PySceneDetect returns;
- Python's `f"{x:.3f}"` and JavaScript's `String(number)` and `parseFloat`.

## Model

| member | source | states |
|---|---|---|
| Models.JobStatusName | backend/digitizer/models.py:6-10 | every job status has a wire name that parses back to the same status |
| Models.ParseJobStatus | backend/digitizer/models.py:6-10 | exactly the four names detected, ripping, complete and failed are job statuses |
| Models.DriveStatusName | backend/digitizer/models.py:13-16 | every drive status's wire name parses back to it |
| Models.ParseDriveStatus | backend/digitizer/models.py:13-16 | exactly empty, disc_detected and ripping are drive statuses |
| Models.CaptureStatusName | backend/digitizer/models.py:19-21 | every capture status's wire name parses back to it |
| Models.ParseCaptureStatus | backend/digitizer/models.py:19-21 | exactly idle and recording are capture statuses |
| Models.JobToJson | backend/digitizer/models.py:30-40 | the dumped job is an object carrying the job's id and the wire name of its status |
| DriveMonitor.MatchTitleAt | backend/digitizer/drive_monitor.py:9-11 | a title match starts with `Title:` at the position tried and ends after it, inside the text |
| DriveMonitor.Scan | backend/digitizer/drive_monitor.py:38 | the non-overlapping left-to-right scan finds only real matches, in order, and misses no match start |
| DriveMonitor.FindTitles | backend/digitizer/drive_monitor.py:38 | `finditer` over the lsdvd text: sound, ordered and complete with respect to the title pattern |
| DriveMonitor.Titles | backend/digitizer/drive_monitor.py:38-42 | one title per match, in match order, holding that match's number and length |
| DriveMonitor.LongestTrack | backend/digitizer/drive_monitor.py:12 | the number after the first `Longest track:` match, or none when there is no match |
| DriveMonitor.FirstLongest | backend/digitizer/drive_monitor.py:46 | `max` by duration picks a title of maximal duration, and no earlier title is as long |
| DriveMonitor.MainTitle | backend/digitizer/drive_monitor.py:44-47 | the main title is the `Longest track:` number; without it, the number of the first longest title; with no titles either, 1 |
| DriveMonitor.DurationOf | backend/digitizer/drive_monitor.py:49-51 | the duration of the first title with the given number, or 0.0 when none has it |
| DriveMonitor.ParseLsdvd | backend/digitizer/drive_monitor.py:36-57 | title_count is the number of title matches; main_title is the `Longest track:` number, else the number of the first longest title, else 1; duration is the length of the first title with that number, or 0.0 when none has it |
| DriveMonitor.CheckDisc | backend/digitizer/drive_monitor.py:21-34 | a disc is seen exactly when lsdvd ran and exited 0, and its info is the parse of lsdvd's output |
| DriveMonitor.PollOnce | backend/digitizer/drive_monitor.py:59-72 | info is reported only on an absent-to-present transition; present-to-absent gives empty; otherwise the old status comes back without info |
| DriveMonitor.SetRipping | backend/digitizer/drive_monitor.py:74-75 | only the status changes, to ripping |
| DriveMonitor.SetEmpty | backend/digitizer/drive_monitor.py:77-79 | the monitor returns to its initial state: empty and no disc counted as present |
| DriveMonitor.ReportedOnce | backend/digitizer/drive_monitor.py:63-72 | a disc that stays in is reported by the first poll only, and only if it was not already present |
| DriveMonitor.StaysQuiet | backend/digitizer/drive_monitor.py:63-72 | while a present disc stays in, no poll reports it and the monitor does not change |
| DriveMonitor.SetEmptyRearms | backend/digitizer/drive_monitor.py:59-79 | after `set_empty`, the next poll that sees a disc reports it as detected |
| FfmpegTime.SearchFrom | backend/digitizer/ripper.py:33 | `search` finds the leftmost position matching `time=DD:DD:DD.DD`, or reports that none exists |
| FfmpegTime.ParseTime | backend/digitizer/ripper.py:32-37 | a value exactly when the pattern occurs; it is the non-negative H·3600+M·60+S+CS/100 of the leftmost occurrence |
| FfmpegTime.ParseAfterPrefix | backend/digitizer/ripper.py:32-37 | a well-formed `time=` token after text without a `t` is what the line parses to |
| FfmpegTime.NoTimeField | backend/digitizer/ripper.py:34-35 | a line with no `t` where a token could start parses to None |
| FfmpegTime.RipperProgressExample | backend/tests/test_ripper.py:27-31 | the rip progress line with `time=00:01:30.00` parses to 90.0 |
| FfmpegTime.CaptureProgressExample | backend/tests/test_capture.py:50-53 | the capture progress line with `time=00:05:30.00` parses to 330.0 |
| FfmpegTime.NoMatchExample | backend/digitizer/ripper.py:33-35 | a line without a time field parses to None |
| FfmpegTime.Times | backend/digitizer/ripper.py:108-115 | the times read from a stream of lines: at most one per line, none negative |
| FfmpegTime.TimesAppend | backend/digitizer/ripper.py:108-115 | reading two runs of lines one after the other gives the times of each, concatenated |
| FfmpegTime.TimesSingle | backend/digitizer/ripper.py:112-113 | a single line contributes its parsed time, or nothing when it has none |
| Ripper.Trunc | backend/digitizer/ripper.py:42 | Python's `int()` of a float rounds toward zero |
| Ripper.CalculateProgress | backend/digitizer/ripper.py:39-42 | 0 for a non-positive total; otherwise at most 100, exactly 100 once current reaches total, and below that the truncated percentage |
| Ripper.ProgressMonotone | backend/digitizer/ripper.py:42 | for a fixed positive total, progress never decreases as current grows |
| Ripper.ProgressExamples | backend/tests/test_ripper.py:39-47 | 45 of 90 is 50, 90 of 90 is 100, and 0 of 90 is 0 |
| Ripper.RemuxCommand | backend/digitizer/ripper.py:19-30 | the command starts with `ffmpeg` and ends with the output path |
| Ripper.RemuxCommandOptions | backend/digitizer/ripper.py:19-30 | `-hwaccel` is followed by `auto`, `-i` by the input and `-c` by `copy` |
| Ripper.ProgressReports | backend/digitizer/ripper.py:108-115 | one callback per line carrying a time, each at most 100, and none negative for a positive duration |
| Ripper.ReportsNondecreasing | backend/digitizer/ripper.py:108-115 | when ffmpeg's times do not go back, the reported percentages do not go back either |
| Capture.CaptureCommand | backend/digitizer/capture.py:36-49 | the command starts with `ffmpeg` and ends with the output path |
| Capture.FormatOption | backend/digitizer/capture.py:40 | the input format is `v4l2` |
| Capture.DeviceOption | backend/digitizer/capture.py:41 | the input is the configured capture device |
| Capture.PresetOption | backend/digitizer/capture.py:43 | `-preset` carries the configured preset |
| Capture.QualityOption | backend/digitizer/capture.py:44 | `-crf` carries the quality as a decimal string that reads back to the same integer |
| Capture.BitrateOption | backend/digitizer/capture.py:46 | `-b:a` carries the configured audio bitrate |
| Capture.CustomPresetExample | backend/tests/test_capture.py:42-47 | with preset medium and CRF 20, both `medium` and `20` appear in the command |
| Capture.Launch | backend/digitizer/capture.py:63-75 | starting while recording fails with "Already recording"; otherwise the flag goes up with the new process |
| Capture.Stop | backend/digitizer/capture.py:99-106 | stopping fails with "Not recording" exactly when not recording or without a process; otherwise it sends SIGINT and lowers the flag |
| Capture.Finish | backend/digitizer/capture.py:95-97 | after `start` returns or raises, nothing is recording and no process is held |
| Capture.Reports | backend/digitizer/capture.py:77-90 | one progress callback per stderr line carrying a time, with that time and the size measured then |
| Capture.Start | backend/digitizer/capture.py:58-97 | a refused start changes nothing; a launched one always ends idle; success means exit code 0 or -2 |
| Capture.TransitionsKeepValid | backend/digitizer/capture.py:63-106 | every transition keeps "recording implies a process" |
| Capture.StopThenFinish | backend/digitizer/capture.py:58-106 | start, stop with SIGINT, and the -2 exit count as success, after which a new start is accepted |
| SceneDetector.Loop | backend/digitizer/scene_detector.py:30-46 | the merging loop leaves the argument list the same length |
| SceneDetector.FilterShortScenes | backend/digitizer/scene_detector.py:24-46 | a list of at most one scene comes back as it is, argument untouched |
| SceneDetector.AllLongKept | backend/digitizer/scene_detector.py:43-44 | from any point on, when no remaining scene is short, each is appended unchanged |
| SceneDetector.NothingShortNothingChanged | backend/digitizer/scene_detector.py:27-46 | when no scene is shorter than the minimum, the output equals the input and the argument is unchanged |
| SceneDetector.LoopStep | backend/digitizer/scene_detector.py:32-45 | each of the three branches (merge back, lend start forward, keep) preserves the loop invariant |
| SceneDetector.LoopKeepsState | backend/digitizer/scene_detector.py:32-45 | the loop invariant holds when the loop ends |
| SceneDetector.FilterContiguous | backend/digitizer/scene_detector.py:24-46 | contiguous input gives a non-empty, contiguous output no longer than the input, spanning the same range; with two or more scenes out, none is short |
| SceneDetector.LoopMutation | backend/digitizer/scene_detector.py:39-42 | the loop only ever overwrites a scene's start, and only with the first scene's start |
| SceneDetector.ArgumentMutation | backend/digitizer/scene_detector.py:39-42 | after the call, each argument scene keeps its end and has its own start or the first scene's start |
| SceneDetector.FilterExample | backend/tests/test_scene_detector.py:25-38 | the five-scene example merges into (0, 46.5), (46.5, 121) and (121, 200) |
| SceneDetector.ForwardMergeExample | backend/digitizer/scene_detector.py:39-42 | a short first scene gives its start to the next one, and the argument list shows the change |
| SceneDetector.DetectedScenes | backend/digitizer/scene_detector.py:127-135 | no cuts means one scene from 0 to the video's length; otherwise the cuts as they are |
| SceneDetector.ThumbnailCommand | backend/digitizer/scene_detector.py:48-59 | the command starts with `ffmpeg` and ends with the output path |
| SceneDetector.ThumbnailCommandOptions | backend/digitizer/scene_detector.py:48-59 | `-ss` carries the time stamp, `-i` the video and `-vframes` 1 |
| SceneDetector.SceneFileName | backend/digitizer/scene_detector.py:98 | a scene file name is a non-empty single path segment |
| SceneDetector.SceneFileNameDigits | backend/digitizer/scene_detector.py:98 | `scene_` + the index as `{:03d}` writes it (exactly three digits when it fits, its own digits without a leading zero otherwise) + the extension |
| SceneDetector.ThumbnailName | backend/digitizer/scene_detector.py:98 | the thumbnail name is a non-empty single path segment |
| SceneDetector.ThumbnailTime | backend/digitizer/scene_detector.py:101 | the thumbnail is taken half a second in when that is still before the end, else at the start |
| SceneDetector.Number | backend/digitizer/scene_detector.py:95-111 | the k-th kept scene becomes scene k+1 with the k-th drawn id, its times, its rounded length, its thumbnail time and a path under the thumbnail directory |
| SceneDetector.NumberingFacts | backend/digitizer/scene_detector.py:96-111 | indices run 1..n in list order, strictly increasing, and each thumbnail file is named after its index |
| SceneDetector.AnalyzeProgress | backend/digitizer/scene_detector.py:80-115 | reports are 0, then 50, then one per scene in [50, 100], the last one 100 |
| SceneDetector.SceneProgress | backend/digitizer/scene_detector.py:113-115 | a scene's report lies in [50, 100] and is 100 for the last scene |
| SceneDetector.AnalyzeProgressNondecreasing | backend/digitizer/scene_detector.py:80-115 | the progress reports of `analyze` never go back |
| SceneDetector.SceneProgressMonotone | backend/digitizer/scene_detector.py:114 | a later scene never reports less than an earlier one |
| SceneDetector.LoopSize | backend/digitizer/scene_detector.py:30-46 | the loop keeps at most one scene per scene it reads, and never ends with nothing kept once it has read a scene |
| SceneDetector.KeptFacts | backend/digitizer/scene_detector.py:24-46 | any non-empty list keeps between one scene and as many as it had; a contiguous one is covered from its first start to its last end, with no short scene when two or more are kept |
| SceneDetector.NumberedKept | backend/digitizer/scene_detector.py:92-111 | the numbered scenes of a detection are 1..n in order with id, rounded length and thumbnail, and cover a contiguous detection |
| SceneDetector.Analyze | backend/digitizer/scene_detector.py:74-117 | between one scene and as many as were detected, numbered 1..n in order with id, rounded length and thumbnail; reports 0, 50, then one per scene, never going back and ending at 100; a contiguous detection is covered from its first start to its last end, with no short scene when two or more come out |
| SceneDetector.AnalyzeKeepsFiltered | backend/digitizer/scene_detector.py:92-108 | the scenes carry exactly the times the filter kept, in order |
| SceneDetector.AnalyzeNoCuts | backend/digitizer/scene_detector.py:127-130 | a video without cuts becomes one scene numbered 1 covering the whole video, with progress 0, 50, 100 |
| Splitter.SplitCommand | backend/digitizer/splitter.py:10-26 | the command starts with `ffmpeg` and ends with the output path |
| Splitter.SplitInputOptions | backend/digitizer/splitter.py:17-26 | `-i` carries the input and `-c` is `copy` |
| Splitter.SplitRangeOptions | backend/digitizer/splitter.py:17-26 | `-ss` with the start comes before `-to` with the end, and each is the first of its flag |
| Splitter.OutPathName | backend/digitizer/splitter.py:59 | each output file's name is `scene_NNN.mp4` for its scene index |
| Splitter.SplitPercent | backend/digitizer/splitter.py:74 | the percentage lies in [0, 100] and is 100 after the last scene |
| Splitter.SplitPercentMonotone | backend/digitizer/splitter.py:74 | later reports never show a smaller percentage |
| Splitter.ReportAt | backend/digitizer/splitter.py:73-75 | each report carries the scene's index and a percentage in [0, 100], the last one 100 |
| Splitter.SplitAll | backend/digitizer/splitter.py:47-77 | the paths are exactly the outputs of the scenes whose cut succeeded, in order; one command and one report per scene, the last at 100 |
| Splitter.SucceededFacts | backend/digitizer/splitter.py:57-71 | no more paths than scenes; all paths when all cuts succeed, none when all fail; each path belongs to a succeeded scene |
| Splitter.SplitAllExample | backend/tests/test_splitter.py:56-79 | three scenes that all cut cleanly give three files named `scene_NNN.mp4` after their scenes, and three reports 33, 66, 100 |
| Splitter.FailedCutExample | backend/digitizer/splitter.py:57-75 | with exits 0, 1, 0 over three scenes, the first and third outputs come back, and the reports are still 33, 66, 100 |
| Database.NewRow | backend/digitizer/db.py:16-27 | a new row holds every column of the jobs table and the given id |
| Database.FindJob | backend/digitizer/db.py:57 | the position of the first row with the id, or none when no row has it |
| Database.GetJob | backend/digitizer/db.py:56-63 | a row is returned exactly when one with the id is stored, and it is that stored row |
| Database.CreateJob | backend/digitizer/db.py:47-54 | inserting fails exactly when the id is taken; otherwise the new row is appended and the settings are untouched |
| Database.CreateThenGet | backend/digitizer/db.py:47-63 | a created job reads back with status detected, progress 0, and the given source type and output path |
| Database.Writable | backend/digitizer/db.py:85-86 | only keyword arguments in the allowed set are kept, with their values |
| Database.UpdateJob | backend/digitizer/db.py:84-94 | no row is added or removed; with no allowed key the database is unchanged |
| Database.Patch | backend/digitizer/db.py:91-93 | the rows with the id take the new values and all other rows stay as they were |
| Database.UpdateJobWrites | backend/digitizer/db.py:84-94 | other rows are untouched; a column changes only when it is given and allowed, and then to the value given |
| Database.UpdateKeepsIds | backend/digitizer/db.py:84-94 | an update never makes a job appear or disappear |
| Database.Without | backend/digitizer/db.py:97 | DELETE keeps exactly the rows without the id, and removes something exactly when such a row existed |
| Database.DeleteJob | backend/digitizer/db.py:96-99 | true exactly when a job with the id existed, and afterwards no job has the id |
| Database.Insert | backend/digitizer/db.py:73 | inserting into the ordering adds exactly the one row |
| Database.InsertSorted | backend/digitizer/db.py:73 | inserting into a descending list keeps it descending |
| Database.SortDescending | backend/digitizer/db.py:73 | ORDER BY returns a permutation of its rows |
| Database.SortSorted | backend/digitizer/db.py:73 | ORDER BY started_at DESC returns the rows newest first |
| Database.OfSource | backend/digitizer/db.py:66-70 | the WHERE clause keeps exactly the rows of the given source type |
| Database.Window | backend/digitizer/db.py:73 | LIMIT/OFFSET: the window stays in range, holds at most `limit` rows, starts at the offset, and a negative limit means no limit |
| Database.Paged | backend/digitizer/db.py:73 | at most `limit` rows; a negative limit with no offset keeps everything |
| Database.ListJobs | backend/digitizer/db.py:65-82 | never more than `limit` jobs |
| Database.CandidatesStored | backend/digitizer/db.py:65-75 | the rows the query chooses from are stored rows |
| Database.CandidatesOfSource | backend/digitizer/db.py:66-70 | with a source type given, every row chosen from has that source type |
| Database.PageOfSorted | backend/digitizer/db.py:73 | a page is a sub-multiset of the ordered rows and keeps their order |
| Database.ListJobsStored | backend/digitizer/db.py:65-82 | every listed job is a stored row, with no row listed twice |
| Database.ListJobsOfSource | backend/digitizer/db.py:66-70 | with a source type given, every listed job has it |
| Database.ListJobsNewestFirst | backend/digitizer/db.py:65-82 | the listing is ordered by started_at descending |
| Database.CountContaining | backend/digitizer/db.py:122-128 | the count of rows whose output path mentions the date is at most the number of rows |
| Database.NextSequence | backend/digitizer/db.py:122-128 | the next sequence number is between 1 and one more than the number of jobs |
| Database.CreateAdvancesSequence | backend/digitizer/db.py:122-128 | creating a job advances the date's sequence by one exactly when its output path mentions the date |
| Database.InsertOrIgnore | backend/digitizer/db.py:32-38 | existing settings keep their values, every default key ends up present, no other key appears, and a newly added key holds the value of the first pair naming it |
| Database.InsertedValues | backend/digitizer/db.py:32-38 | when no key is listed twice, every key that was absent holds its own pair's value |
| Database.InsertOrIgnoreFirst | backend/digitizer/db.py:32 | a missing default key gets its default value |
| Database.Init | backend/digitizer/db.py:11-41 | start-up keeps the jobs and every stored setting, and adds only the missing defaults, each with its default value |
| Database.InsertOrIgnorePresent | backend/digitizer/db.py:32-38 | defaults whose keys are all present change nothing |
| Database.InitIdempotent | backend/digitizer/db.py:32-38 | running start-up twice is the same as running it once |
| Database.InitFresh | backend/digitizer/db.py:32-34 | on a fresh database, the settings read back as the `Settings` model's defaults (models.py:43-46): output_path /output/dvd, naming_pattern YYYY-MM-DD_rip_NNN, auto_eject true |
| Database.Decode | backend/digitizer/db.py:106-108 | exactly "true" and "false" become booleans, with the value they name; anything else stays text |
| Database.GetSettings | backend/digitizer/db.py:101-110 | every stored key is returned, decoded |
| Database.UpdateSettings | backend/digitizer/db.py:112-120 | an upsert: given keys take their encoded values, other keys keep theirs, and jobs are untouched |
| Database.SettingsRoundTrip | backend/digitizer/db.py:101-120 | a boolean written and read back is the same boolean; other text reads back as text, and an integer as its decimal text |
| JobManager.Construct | backend/digitizer/jobs.py:9-11 | a keyword the constructor does not declare raises; otherwise rips go under `output_base`, by default /output/dvd |
| JobManager.OutputPath | backend/digitizer/jobs.py:15-17 | the path is base/DATE_rip_ + the sequence as `{seq:03d}` writes it + .mp4 |
| Text.ZeroPad | backend/digitizer/jobs.py:17 | `{n:0Nd}`: the digits of n, exactly N characters when they fit, otherwise n's own digits with no leading zero |
| Text.ZeroPadLength | backend/digitizer/jobs.py:17 | the padded rendering is exactly max(N, length of `str(n)`) characters long |
| Text.ZeroPaddedUnique | backend/digitizer/jobs.py:17 | that description admits only one string, so the padded rendering is determined |
| JobManager.FirstRipNumbered001 | backend/tests/test_jobs.py:32-37 | the first rip created on an empty database gets a path ending in `_rip_001.mp4` |
| JobManager.OutputPathMentionsDate | backend/digitizer/jobs.py:15-17 | the output path contains the date, so it counts toward that date's sequence |
| JobManager.IntField | backend/digitizer/jobs.py:75 | an absent field takes its default |
| JobManager.DiscInfoOf | backend/digitizer/jobs.py:68-75 | an empty disc_info gives the DiscInfo defaults |
| JobManager.DiscInfoRoundTrip | backend/digitizer/jobs.py:68-75 | disc info stored as a dictionary reads back unchanged, and a dictionary without its keys gives the defaults |
| JobManager.StatusOf | backend/digitizer/jobs.py:76 | a status column validates exactly when it holds a status name, and names the status returned |
| JobManager.JobOf | backend/digitizer/jobs.py:72-83 | a validated job carries the row's id, status and progress |
| JobManager.RowToJob | backend/digitizer/jobs.py:67-83 | a row that validates gives a job with the row's id, status and progress |
| JobManager.NewRowToJob | backend/digitizer/jobs.py:19-26 | a freshly inserted row reads back as the `Job` model's defaults for its id (models.py:30-40) with only the disc info, path and start time set |
| JobManager.GetJob | backend/digitizer/jobs.py:28-32 | a missing job reads as None |
| JobManager.CreateJob | backend/digitizer/jobs.py:13-26 | creation fails exactly when the drawn id is already taken |
| JobManager.CreateJobFacts | backend/digitizer/jobs.py:13-26 | a new job is stored as a dvd job with status detected, progress 0 and the numbered path, and the date's sequence advances by one |
| JobManager.UpdatedRow | backend/digitizer/db.py:84-94 | after an update with allowed keys, the job's row is the old row with those values written over it |
| JobManager.CompleteFieldsFacts | backend/digitizer/jobs.py:46-55 | `mark_complete` writes exactly status, progress, file_size and completed_at, all allowed |
| JobManager.FailedFieldsFacts | backend/digitizer/jobs.py:57-62 | `mark_failed` writes exactly status, error and completed_at, all allowed |
| JobManager.MarkRippingChangesStatus | backend/digitizer/jobs.py:38-40 | `mark_ripping` returns the job with only its status changed, to ripping |
| JobManager.UpdateProgressCaps | backend/digitizer/jobs.py:42-44 | `update_progress` stores min(progress, 100) and changes nothing else |
| JobManager.MarkCompleteFields | backend/digitizer/jobs.py:46-55 | `mark_complete` gives status complete, progress 100, the given size and the completion time, with the rest kept |
| JobManager.MarkFailedFields | backend/digitizer/jobs.py:57-62 | `mark_failed` gives status failed, the error and the completion time, with progress kept |
| JobManager.ListJobs | backend/digitizer/jobs.py:34-36 | one job per listed row, never more than the limit |
| JobManager.RowsToJobs | backend/digitizer/jobs.py:36 | every row converts in order, or the listing raises because some row does not |
| MonitorLoop.AppJobManager | backend/digitizer/main.py:50 | building the job manager as `create_app` does raises a TypeError for every pair of output paths |
| MonitorLoop.CorrectedAppJobManager | backend/digitizer/main.py:50 | with only the declared keywords, the manager numbers rips under the DVD output base |
| MonitorLoop.Capped | backend/digitizer/jobs.py:42-44 | the stored progress is at most 100 and at most the report, and equals a report up to 100 |
| MonitorLoop.OnProgress | backend/digitizer/main.py:103-108 | each callback broadcasts `job_progress` with the report as given; with nothing raised, there is one broadcast per report |
| MonitorLoop.Conclude | backend/digitizer/main.py:117-134 | with nothing raised, exactly one terminal broadcast; an eject only after a successful rip |
| MonitorLoop.RipAndConclude | backend/digitizer/main.py:103-137 | when nothing raises, it ends with a terminal broadcast, then `empty`, and the monitor re-armed; a rip that raises broadcasts nothing and leaves the database and the monitor as they were |
| MonitorLoop.StartRip | backend/digitizer/main.py:94-137 | the first broadcast is `ripping`; with nothing raised, at least four broadcasts, ending terminal then `empty` |
| MonitorLoop.OnDisc | backend/digitizer/main.py:90-137 | the first broadcast is `disc_detected`; an exception leaves the disc counted as present and nothing ejected |
| MonitorLoop.Iterate | backend/digitizer/main.py:86-142 | nothing is broadcast unless a new disc appeared; otherwise `disc_detected` comes first, and a pass without an exception ends terminal then `empty` |
| MonitorLoop.ProgressFrames | backend/digitizer/main.py:105-108 | one `job_progress` broadcast per report, in order |
| MonitorLoop.ProgressPersisted | backend/digitizer/main.py:103-108 | each report is stored capped and broadcast unchanged; the job ends with the last report's capped value |
| MonitorLoop.ProgressStep | backend/digitizer/main.py:103-104 | one callback stores the capped report without touching the settings |
| MonitorLoop.TerminalFrame | backend/digitizer/main.py:120-134 | the broadcast after the rip is `job_complete` or `job_failed` |
| MonitorLoop.ConcludeReadable | backend/digitizer/main.py:117-134 | the job is stored and broadcast as complete (size, 100, time) or failed ("FFmpeg rip failed"); an eject happens exactly on success with auto_eject on |
| MonitorLoop.RipAndConcludeRuns | backend/digitizer/main.py:103-137 | when the rip returns, the rip phase broadcasts every report, the finished job and `empty`, in that order, and stores the finished job; when it raises, nothing is broadcast and the job stays as stored |
| MonitorLoop.RipAndConcludeEjects | backend/digitizer/main.py:117-128 | the disc is ejected exactly when the rip succeeded and auto_eject is on |
| MonitorLoop.StartRipRuns | backend/digitizer/main.py:94-137 | after creation: `ripping`, progress 0, every report, the finished job, then `empty`; when the rip raises, only `ripping` and progress 0, with the job and the drive left `ripping` |
| MonitorLoop.DetectionRuns | backend/digitizer/main.py:88-140 | a new disc gives `disc_detected`, `ripping`, progress 0, the reports, the finished job and `empty`, in that order, and leaves the finished job stored and the monitor re-armed; a rip that raises ends the pass after progress 0 with the job and the drive `ripping`; the disc is ejected exactly when the rip succeeded and auto_eject is on |
| MonitorLoop.DetectionOpens | backend/digitizer/main.py:90-101 | whatever the rip does, a detection opens with `disc_detected`, `ripping` and progress 0 |
| MonitorLoop.DuplicateIdRaises | backend/digitizer/main.py:88-140 | a taken job id raises after `disc_detected` and leaves the database unchanged |
| MonitorLoop.ErrorKeepsDiscClaimed | backend/digitizer/main.py:139-142 | after a pass that raised, the disc still in the drive is not reported again |
| MonitorLoop.RearmedAfterRun | backend/digitizer/main.py:128-137 | after a completed pass, a disc in the drive is reported again on the next poll |
| MonitorLoop.AutoEjectSetting | backend/digitizer/main.py:125-126 | auto_eject written as a boolean is obeyed, and a missing setting means eject |
| MonitorLoop.ProgressFrameIsRipUpdate | backend/digitizer/main.py:103-108 | the front end takes a rip progress broadcast as an update of only the active job and its progress |
| MonitorLoop.StatusFrameSetsDrive | backend/digitizer/main.py:91 | a drive status broadcast sets only the front end's drive status |
| MonitorLoop.ReduceEndsIdle | backend/digitizer/main.py:117-137 | broadcasts ending terminal then `empty` leave the front end with no active job, progress 0 and the drive empty |
| MonitorLoop.FrontEndIdleAfterRun | backend/digitizer/main.py:117-137 | after any pass that ran a rip without an exception, the front end shows no active job and an empty drive, with the connection flag kept |
| MonitorLoop.ReduceOpening | backend/digitizer/main.py:90-101 | the three opening broadcasts leave the front end ripping, showing the new job at progress 0 |
| MonitorLoop.FrontEndRippingAfterStart | backend/digitizer/main.py:90-101 | after the first three broadcasts of a detection, the front end shows the drive ripping the new job at progress 0 |
| MonitorLoop.FrontEndStuckAfterRipRaises | backend/digitizer/main.py:88-142 | when `rip` raises, the whole pass leaves the front end showing the drive ripping the job, the job stays `ripping` in the database, and while the disc stays in the drive the next pass broadcasts nothing |
| LiveState.UpdateWritesOnly | frontend/src/context/digitizer-context.tsx:103-185 | each event type writes only the fields it names; `job_progress` writes capture fields when `elapsed` is present and rip fields otherwise |
| LiveState.JobWritesOnly | frontend/src/context/digitizer-context.tsx:118-145 | job events write only the active or capture job fields and their own last-job slot |
| LiveState.DriveStatusWritesOnly | frontend/src/context/digitizer-context.tsx:105-109 | `drive_status` writes only the drive status |
| LiveState.CaptureStatusWritesOnly | frontend/src/context/digitizer-context.tsx:110-117 | `capture_status` writes only the capture fields |
| LiveState.AnalysisWritesOnly | frontend/src/context/digitizer-context.tsx:146-177 | analysis events write only the analysis record |
| LiveState.SplitWritesOnly | frontend/src/context/digitizer-context.tsx:159-182 | split events write only the split record |
| LiveState.AsWrittenThrowsExactly | frontend/src/context/digitizer-context.tsx:98-189 | the handler as written throws exactly for an event that reads `data` when `data` is null or missing |
| LiveState.UpdaterThrowsOnMissingData | frontend/src/context/digitizer-context.tsx:103-109 | `{"event":"drive_status"}` makes the updater as written throw |
| LiveState.HandlerWritesOnly | frontend/src/context/digitizer-context.tsx:98-190 | whenever the handler as written does not throw, it writes only the fields its event may write |
| LiveState.ConnectedNeverWritten | frontend/src/context/digitizer-context.tsx:103-185 | no event type may write `connected` |
| LiveState.HandlerIgnoresUnknown | frontend/src/context/digitizer-context.tsx:183-189 | an unknown event type, or a payload that fails JSON.parse, returns the previous state |
| LiveState.OnMessage | frontend/src/context/digitizer-context.tsx:98-190 | the handler never changes `connected`, writes only its event's fields, ignores unknown and malformed frames, and otherwise agrees with the code as written |
| LiveState.FrameHandled | frontend/src/context/digitizer-context.tsx:98-190 | a frame is applied unless its event reads a missing `data`, in which case it is dropped |
| LiveState.CaptureProgressValues | frontend/src/context/digitizer-context.tsx:118-126 | `job_progress` with `elapsed` sets the capture job, elapsed and size from the frame and changes nothing else |
| LiveState.RipProgressValues | frontend/src/context/digitizer-context.tsx:127-131 | `job_progress` without `elapsed` sets the active job and progress from the frame and changes nothing else |
| LiveState.CaptureStatusValues | frontend/src/context/digitizer-context.tsx:110-117 | `capture_status` sets the status; `idle` also clears the capture job, elapsed and size, and any other status leaves them |
| LiveState.TerminalJobValues | frontend/src/context/digitizer-context.tsx:132-145 | job_complete or job_failed clears the active job and progress and fills only its own last-job slot |
| LiveState.TrackedProgressValues | frontend/src/context/digitizer-context.tsx:146-167 | progress frames replace the tracked record wholesale, from the frame's fields, whatever was tracked before |
| LiveState.TrackedProgressCleared | frontend/src/context/digitizer-context.tsx:154-182 | the complete and failed events clear their tracked record |
| LiveState.ReduceKeepsConnected | frontend/src/context/digitizer-context.tsx:103-185 | no sequence of messages changes `connected` |
| Channel.Step | frontend/src/context/digitizer-context.tsx:77-96 | open resets the delay to 1000 and connects; close disconnects and, while mounted, arms a timer with the current delay; a firing doubles the delay up to 30000 and reconnects; an error closes; teardown disarms |
| Channel.RunPreservesValid | frontend/src/context/digitizer-context.tsx:65-96 | any run of events keeps the delay in [1000, 30000] and a torn-down provider without a timer |
| Channel.DelayStaysBounded | frontend/src/context/digitizer-context.tsx:65-91 | from mounting on, the delay stays within [1000, 30000] |
| Channel.NoReconnectAfterTeardown | frontend/src/context/digitizer-context.tsx:84-91 | after teardown, no event creates a socket or arms a timer |
| Channel.BackoffSequence | frontend/src/context/digitizer-context.tsx:85-91 | after k consecutive failures the delay is min(1000·2^k, 30000) |
| Channel.OpenResetsBackoff | frontend/src/context/digitizer-context.tsx:77-80 | an open resets the delay to 1000 and marks the state connected |
| ApiClient.ErrorMessageParses | frontend/src/lib/api.ts:8 | the error message reads back into the status code and status text it reports |
| ApiClient.Request | frontend/src/lib/api.ts:5-11 | a request fails exactly when the response is not ok, with a message naming its status and text; otherwise it yields the body |
| ApiClient.JobsQueryJoined | frontend/src/lib/api.ts:17-25 | the jobs URL is `/api/jobs?` followed by the limit, offset and source-type pairs joined with `&`, with defaults 10 and 0 |
| ApiClient.GetJobsQuery | frontend/src/lib/api.ts:17-26 | the query of the jobs URL splits back into exactly those pairs |
| ApiClient.JobsPairsParams | frontend/src/lib/api.ts:22-25 | the pairs name the limit and offset, and a source type exactly when one is given and non-empty |
| ApiClient.GetJobsParams | frontend/src/lib/api.ts:17-26 | the URL's limit and offset parameters are the arguments or their defaults; source_type appears exactly when given and non-empty |
| ApiClient.GetJobsNumbers | frontend/src/lib/api.ts:17-22 | the limit and offset parameters read back as the numbers asked for |
| ApiClient.EditsRoundTrip | frontend/src/lib/api.ts:79-88 | the scene list sent by `updateScenes` reads back from its JSON body unchanged |
| ApiClient.JobPathSegments | frontend/src/lib/api.ts:69-94 | a job-scoped path splits into api, jobs, the job id and the action |
| ApiClient.ScenesCallsAgree | frontend/src/lib/api.ts:75-88 | scene GET and PUT target the same `/api/jobs/{id}/scenes` path; PUT carries the list as a JSON array body |
| ApiClient.ThumbnailUrlNamesFile | frontend/src/lib/api.ts:96-98 | the thumbnail URL starts with the base and its last segment is the file name |
| SceneCard.Mount | frontend/src/components/scene-card.tsx:27-29 | a card mounts with the editor closed |
| SceneCard.OpenAdjust | frontend/src/components/scene-card.tsx:141-146 | Adjust opens the editor with the fields seeded from the scene's current times |
| SceneCard.SaveAdjust | frontend/src/components/scene-card.tsx:38-45 | Save adjusts exactly when both fields parse and start < end, with those values, and then closes; otherwise nothing changes |
| SceneCard.CancelEdit | frontend/src/components/scene-card.tsx:47-51 | Cancel resets both fields to the scene's times and closes the editor |
| SceneCard.CancelDiscardsTyping | frontend/src/components/scene-card.tsx:47-51 | whatever was typed, Cancel returns the card to its mounted state, and reopening seeds the same fields |
| SceneCard.SaveSeeded | frontend/src/components/scene-card.tsx:38-45 | saving the seeded fields adjusts to the scene's own times exactly when start < end, and otherwise stays open |
| SceneCard.RejectedSaveIsStable | frontend/src/components/scene-card.tsx:38-45 | a rejected Save changes nothing, so pressing it again is rejected the same way |
| SceneCard.ThumbnailFilename | frontend/src/components/scene-card.tsx:31-33 | the file name is the text after the last `/`, or empty without a path |
| SceneCard.FilenameEmptyIff | frontend/src/components/scene-card.tsx:31-33 | the file name is empty exactly when the path is missing, empty or ends in `/` |
| SceneCard.ThumbUrl | frontend/src/components/scene-card.tsx:31-36 | no URL exactly when the path is missing, empty or ends in `/`; otherwise the thumbnail URL for the file name |
| SceneCard.ThumbUrlNamesStoredFile | frontend/src/components/scene-card.tsx:31-36 | the URL's last segment is the stored path's last segment |
| SceneCard.DeleteOnlyInterior | frontend/src/components/scene-card.tsx:151-158 | Delete is offered exactly for scenes that are neither first nor last, so never in a list of at most two |
| SceneTimeline.SegmentOf | frontend/src/components/scene-timeline.tsx:59-90 | width (end−start)/total·100, colour i mod 6, the scene number drawn exactly when the width is over 6, selected exactly at the selected index |
| SceneTimeline.Render | frontend/src/components/scene-timeline.tsx:32-108 | the placeholder exactly when the total is 0 or there are no scenes; otherwise one segment per scene and n−1 cut markers |
| SceneTimeline.Telescope | frontend/src/components/scene-timeline.tsx:60 | the first k widths of chained scenes add up to the span from the first start to the k-th end |
| SceneTimeline.WidthsFillBar | frontend/src/components/scene-timeline.tsx:60 | for scenes tiling the video, the widths add up to 100 percent |
| SceneTimeline.CutsAtSegmentEdges | frontend/src/components/scene-timeline.tsx:96-97 | each cut marker sits exactly at the right edge of the segment before it |
| SceneTimeline.ColoursAndSelection | frontend/src/components/scene-timeline.tsx:61-69 | neighbouring segments never share a colour, and only the segment at the selected index is selected |
| CaptureCard.Pad2Digits | frontend/src/components/vhs-capture-card.tsx:12 | a padded part is at least two digits and keeps its value, exactly two below 100 |
| CaptureCard.DisplaySplits | frontend/src/components/vhs-capture-card.tsx:12 | the display splits on `:` into the three padded parts |
| CaptureCard.DisplayReadsBack | frontend/src/components/vhs-capture-card.tsx:12 | the display reads back to h·3600+m·60+s |
| CaptureCard.ElapsedParts | frontend/src/components/vhs-capture-card.tsx:8-13 | for t ≥ 0, m < 60, s < 60 and h·3600+m·60+s = ⌊t⌋ |
| CaptureCard.FormatElapsedReadsBack | frontend/src/components/vhs-capture-card.tsx:8-13 | the formatted time reads back to the whole seconds |
| CaptureCard.FormatElapsedWidths | frontend/src/components/vhs-capture-card.tsx:12 | three parts; hours at least two digits, minutes and seconds exactly two |
| CaptureCard.RecordingFollowsStatus | frontend/src/components/vhs-capture-card.tsx:41 | after a capture_status frame, the card records exactly when the status is `recording` |
| CaptureCard.Handle | frontend/src/components/vhs-capture-card.tsx:19-39 | the button posts stop when recording and start otherwise; the handler's promise resolves whatever the server answers; loading goes true then false, holding from before the call until it settles |
| CaptureCard.CatchSwallows | frontend/src/components/vhs-capture-card.tsx:21-27 | with the empty catch the handler always completes normally; without it, it would throw exactly when the response is not ok |
| CaptureCard.FailureLikeSuccess | frontend/src/components/vhs-capture-card.tsx:19-39 | a failed call ends exactly like a successful one: same calls and loading changes, button enabled after and disabled while pending |
| Clock.JsRem | frontend/src/components/active-job-panel.tsx:36-37 | JavaScript's `%` agrees with the mathematical remainder for a non-negative dividend and stays within the divisor |
| Clock.SplitAddsUp | frontend/src/components/active-job-panel.tsx:35-37 | for elapsed ≥ 0, m < 60, s < 60 and h·3600+m·60+s = elapsed |
| Clock.RealSplit | frontend/src/components/vhs-capture-card.tsx:9-11 | the floored parts of a real time are the split of its whole seconds |
| ActiveJobPanel.JobIdShown | frontend/src/components/active-job-panel.tsx:53 | `-` without an active job; otherwise the id's first up-to-eight characters followed by `...` |
| ActiveJobPanel.OnJobChange | frontend/src/components/active-job-panel.tsx:10-20 | clearing the job resets the counter to 0 and stops it; a new job restarts the count from now |
| ActiveJobPanel.OnTick | frontend/src/components/active-job-panel.tsx:16-18 | a tick shows the whole seconds since the start |
| ActiveJobPanel.ClearedStaysZero | frontend/src/components/active-job-panel.tsx:10-20 | once the job is cleared, the counter stays at 0 however many ticks follow |
| ActiveJobPanel.TimeStringJoins | frontend/src/components/active-job-panel.tsx:38-42 | the time string is its h/m/s tokens joined by single spaces |
| ActiveJobPanel.TokensAddUp | frontend/src/components/active-job-panel.tsx:35-42 | the tokens hold no spaces and are worth exactly the elapsed seconds |
| ActiveJobPanel.TimeStringReadsBack | frontend/src/components/active-job-panel.tsx:35-42 | the shown time reads back to the elapsed seconds; it has 3, 2 or 1 tokens as the time reaches an hour, a minute or neither |
| ActiveJobPanel.IdleAfterRun | frontend/src/components/active-job-panel.tsx:22 | after a completed rip pass, the panel shows its placeholder, `-` as the id, and a stopped counter |
| ActiveJobPanel.ActiveAfterStart | frontend/src/components/active-job-panel.tsx:22 | after the opening broadcasts of a rip, the panel is active and shows the new job's abbreviated id |
| JobsPage.Started | frontend/src/app/jobs/page.tsx:24-25 | a fetch shows loading and keeps everything else |
| JobsPage.Completed | frontend/src/app/jobs/page.tsx:24-35 | success replaces the jobs and sets hasMore exactly when 20 came back; failure keeps the jobs; loading clears either way |
| JobsPage.PreviousOffset | frontend/src/app/jobs/page.tsx:116 | Previous moves one page back, never below 0 |
| JobsPage.StepKeepsAligned | frontend/src/app/jobs/page.tsx:114-131 | an enabled Previous or Next moves exactly one page and starts a fetch; a disabled one changes nothing |
| JobsPage.RunKeepsAligned | frontend/src/app/jobs/page.tsx:114-131 | the offset stays a non-negative multiple of 20, and the page label is ≥ 1 and names that offset's page |
| JobsPage.ReachableAligned | frontend/src/app/jobs/page.tsx:19-21 | from the first render, every reachable offset is a multiple of 20 with page label ≥ 1 |
| JobsPage.NextPreviousInverse | frontend/src/app/jobs/page.tsx:114-131 | Next then Previous returns to the offset; Previous then Next does too once the earlier page came back full |
| JobsPage.FailedFetchKeepsJobs | frontend/src/app/jobs/page.tsx:24-35 | a failed fetch keeps the jobs and hasMore and clears loading |
| JobsPage.FetchAsksForPage | frontend/src/app/jobs/page.tsx:24-27 | a page fetch is a GET for 20 jobs from the page's offset, without a source filter |

## Left out

- Subprocesses (`lsdvd`, `dvdbackup`, `ffmpeg`, `eject`) and the file system are oracles: exit codes, output lines, file sizes and existence. Async streaming, `asyncio.sleep` and signal delivery are not modelled.
- PySceneDetect is not part of this model. `SceneDetector.DetectedScenes` takes its cut list as a parameter.
- SQLite is an in-memory sequence of rows. Left out are:
  - `LIKE`'s case folding and its `%`/`_` wildcards (taken as a plain substring test);
  - `datetime('now')` (a parameter);
  - the order of rows with equal `started_at` (here, insertion order);
  - JSON encoding of `disc_info` (kept as a structured value).
- Database.ListJobs: states the limit bound in its own contract. Membership, source filtering and ordering are stated by separate lemmas, not by its contract.
- Floating point is modelled as exact reals:
  - Ripper.CalculateProgress: uses exact division, not IEEE doubles;
  - Splitter.SplitPercent: computes `int((i+1)/n*100)` on exact reals, so a double's rounding below an integer (0.29·100) is not reproduced;
  - SceneDetector.SceneProgress: computes `int(index/n*50)` on exact reals, for the same reason.
- Number formatting and parsing are parameters: `f"{x:.3f}"`, `round(…, 3)` (a scene's `duration`), `String(number)` and `parseFloat`.
- Only ASCII digits are read as `\d` (drive_monitor.py:9-12 and ripper.py:32-37). Python's `re` also accepts other Unicode decimal digits, and `int()` converts them. lsdvd and ffmpeg write ASCII, so this is left out. `\s` is modelled as the full Unicode whitespace set that `str.isspace` accepts.
- ActiveJobPanel.TimeString: takes the elapsed count as a whole number. The front end only ever stores `Math.floor` results there.
- ActiveJobPanel.JobIdShown: gives `None` for a truthy id that is not a string. The panel's typing rules that out.
- The progress percentage shown by the active-job panel and by the capture card's file size are not modelled. They are plain display of reducer fields.
- JobsPage.Completed: takes the fetch outcome as a list or an error. A response body that is not a list is not modelled.
- Overlapping in-flight fetches on the jobs page are not modelled: they apply in arrival order.
- ApiClient.GetJobsParams: requires a source type without `&`. `getJobs` does not encode it, so such a value would split into extra pairs.
- Capture.Start: the `start`/`stop` interleaving is modelled as sequential transitions. The concurrent `await` interleaving is left out.
- MonitorLoop.Iterate: one pass of the endless loop is modelled, not the loop and its sleep. The result of `eject` is ignored, as in the code. `rip` may raise only before its first progress report, as ripper.py:51-64 and 103 can; a raise while ffmpeg's stderr is being read, after some reports went out, is not modelled.
- JobManager.CreateJob: takes the uuid, today's date and the clock reading from its caller.
- The framework and transport are not modelled: React rendering, effects and state batching, the WebSocket and fetch transports, `setTimeout` and `setInterval` (delivered as events), and FastAPI wiring.
- Presentation-only and configuration files are not part of this model.

## Findings

| source | as written | input that shows it | evidently intended | confidence | as-written member | corrected member |
|---|---|---|---|---|---|---|
| frontend/src/context/digitizer-context.tsx:103-189 | the state updater reads `data.status` (and other members of `data`) inside the function given to `setState`; React runs it later, outside the handler's `try`, so the TypeError is not caught | the frame `{"event":"drive_status"}` (no `data`) | malformed frames are ignored and leave the state unchanged, as the `catch` comment says | not executed | LiveState.UpdaterThrowsOnMissingData | LiveState.OnMessage |
| backend/digitizer/main.py:50 | both `create_app` (main.py:50) and the lifespan of `app_factory` (main.py:166) call `JobManager(db=db, output_base=..., vhs_output_base=...)`, but `JobManager.__init__` (jobs.py:9) declares only `db` and `output_base` | any start-up of the app: the call raises `TypeError: unexpected keyword argument 'vhs_output_base'` before the monitor loop starts | the job manager is built, numbering rips under the DVD output base | not executed | MonitorLoop.AppJobManager | MonitorLoop.CorrectedAppJobManager |
