/** The SQLite store (backend/digitizer/db.py) as an in-memory pair of
    tables: the job rows in insertion order and the settings as a key-value
    map. A row is a map from column name to SQL value, as `dict(row)` sees it. */
module Database {
  import opened Wrappers
  import opened Text
  import opened Json
  import Models

  /** A stored value. The `disc_info` column holds JSON text; it is kept as
      the decoded object, the dump and load being inverse of each other. */
  datatype SqlValue = SqlNull | SqlInt(i: int) | SqlText(s: string) | SqlDoc(doc: map<string, JsValue>)

  type Row = map<string, SqlValue>

  /** The columns of the `jobs` table. */
  const JobColumns: set<string> :=
    {"id", "source_type", "disc_info", "status", "progress", "output_path", "file_size", "started_at", "completed_at", "error"}

  datatype Db = Db(jobs: seq<Row>, settings: map<string, string>)

  /** `row.get(column)`: `NULL` for a column the row lacks. */
  function Col(row: Row, column: string): SqlValue {
    if column in row then row[column] else SqlNull
  }

  predicate HasId(row: Row, id: string) {
    Col(row, "id") == SqlText(id)
  }

  function OptText(o: Option<string>): SqlValue {
    match o
    case Some(s) => SqlText(s)
    case None => SqlNull
  }

  /** The row `create_job` inserts: the given columns, the table's defaults
      for the rest, and `now` for `datetime('now')`. */
  function NewRow(id: string, sourceType: string, discInfo: map<string, JsValue>, outputPath: Option<string>, now: string): (row: Row)
    ensures row.Keys == JobColumns
    ensures HasId(row, id)
  {
    map[
      "id" := SqlText(id),
      "source_type" := SqlText(sourceType),
      "disc_info" := SqlDoc(discInfo),
      "status" := SqlText("detected"),
      "progress" := SqlInt(0),
      "output_path" := OptText(outputPath),
      "file_size" := SqlNull,
      "started_at" := SqlText(now),
      "completed_at" := SqlNull,
      "error" := SqlNull]
  }

  /** Position of the first row with the given id. */
  function FindJob(rows: seq<Row>, id: string): (r: Option<nat>)
    ensures r.Some? ==>
      (r.value < |rows| && HasId(rows[r.value], id) && forall k :: 0 <= k < r.value ==> !HasId(rows[k], id))
    ensures r.None? ==> forall k :: 0 <= k < |rows| ==> !HasId(rows[k], id)
  {
    if rows == [] then None
    else if HasId(rows[0], id) then Some(0)
    else
      match FindJob(rows[1..], id)
      case Some(k) => Some(k + 1)
      case None => None
  }

  /** `get_job`: the row with that id, if any. */
  function GetJob(db: Db, id: string): (r: Option<Row>)
    ensures r.Some? <==> exists k :: 0 <= k < |db.jobs| && HasId(db.jobs[k], id)
    ensures r.Some? ==> r.value in db.jobs && HasId(r.value, id)
  {
    match FindJob(db.jobs, id)
    case Some(k) => Some(db.jobs[k])
    case None => None
  }

  /** `create_job`: insert a row; the primary key refuses a second row with
      the same id. */
  function CreateJob(db: Db, id: string, sourceType: string, discInfo: map<string, JsValue>, outputPath: Option<string>, now: string): (r: Result<Db>)
    ensures r.Err? <==> GetJob(db, id).Some?
    ensures r.Ok? ==>
      (r.value.jobs == db.jobs + [NewRow(id, sourceType, discInfo, outputPath, now)] && r.value.settings == db.settings)
  {
    if GetJob(db, id).Some? then Err("UNIQUE constraint failed: jobs.id")
    else Ok(db.(jobs := db.jobs + [NewRow(id, sourceType, discInfo, outputPath, now)]))
  }

  /** A created job reads back with the given source type and output path,
      the status "detected" and progress 0. */
  lemma CreateThenGet(db: Db, id: string, sourceType: string, discInfo: map<string, JsValue>, outputPath: Option<string>, now: string)
    requires CreateJob(db, id, sourceType, discInfo, outputPath, now).Ok?
    ensures var row := GetJob(CreateJob(db, id, sourceType, discInfo, outputPath, now).value, id);
      && row == Some(NewRow(id, sourceType, discInfo, outputPath, now))
      && Col(row.value, "status") == SqlText("detected")
      && Col(row.value, "progress") == SqlInt(0)
      && Col(row.value, "source_type") == SqlText(sourceType)
      && Col(row.value, "output_path") == OptText(outputPath)
  {
    var after := CreateJob(db, id, sourceType, discInfo, outputPath, now).value;
    var n := |db.jobs|;
    assert forall k :: 0 <= k < n ==> after.jobs[k] == db.jobs[k];
    assert after.jobs[n] == NewRow(id, sourceType, discInfo, outputPath, now);
    FindLast(after.jobs, id);
  }

  lemma {:induction false} FindLast(rows: seq<Row>, id: string)
    requires |rows| > 0 && HasId(rows[|rows| - 1], id)
    requires forall k :: 0 <= k < |rows| - 1 ==> !HasId(rows[k], id)
    ensures FindJob(rows, id) == Some(|rows| - 1)
  {
    if |rows| > 1 {
      FindLast(rows[1..], id);
    }
  }

  /** The columns `update_job` may write. */
  const Updatable: set<string> := {"status", "progress", "output_path", "file_size", "completed_at", "error"}

  /** The keyword arguments that survive the filter. */
  function Writable(kwargs: map<string, SqlValue>): (fields: map<string, SqlValue>)
    ensures fields.Keys == kwargs.Keys * Updatable
    ensures forall k :: k in fields ==> fields[k] == kwargs[k]
  {
    map k | k in kwargs && k in Updatable :: kwargs[k]
  }

  /** `update_job`: write the updatable keyword arguments into the row with
      that id; with none of them it does nothing. */
  function UpdateJob(db: Db, id: string, kwargs: map<string, SqlValue>): (r: Db)
    ensures r.settings == db.settings && |r.jobs| == |db.jobs|
    ensures kwargs.Keys * Updatable == {} ==> r == db
  {
    var fields := Writable(kwargs);
    if |fields| == 0 then db
    else db.(jobs := Patch(db.jobs, id, fields))
  }

  /** Every row with the id overridden by `fields`. */
  function Patch(rows: seq<Row>, id: string, fields: map<string, SqlValue>): (r: seq<Row>)
    ensures |r| == |rows|
    ensures forall i :: 0 <= i < |rows| ==> r[i] == if HasId(rows[i], id) then rows[i] + fields else rows[i]
  {
    seq(|rows|, i requires 0 <= i < |rows| => if HasId(rows[i], id) then rows[i] + fields else rows[i])
  }

  /** Only the row with that id changes, only in the updatable columns that
      were given, and each of those takes the given value. */
  lemma UpdateJobWrites(db: Db, id: string, kwargs: map<string, SqlValue>, i: nat, c: string)
    requires i < |db.jobs|
    ensures !HasId(db.jobs[i], id) ==> UpdateJob(db, id, kwargs).jobs[i] == db.jobs[i]
    ensures !(c in kwargs && c in Updatable) ==> Col(UpdateJob(db, id, kwargs).jobs[i], c) == Col(db.jobs[i], c)
    ensures HasId(db.jobs[i], id) && c in kwargs && c in Updatable ==> Col(UpdateJob(db, id, kwargs).jobs[i], c) == kwargs[c]
  {
    var fields := Writable(kwargs);
    if |fields| != 0 {
      assert UpdateJob(db, id, kwargs).jobs[i] == if HasId(db.jobs[i], id) then db.jobs[i] + fields else db.jobs[i];
      assert c in fields <==> c in kwargs && c in Updatable;
    }
  }

  /** An update never moves a row to another id, so the same ids are found
      before and after. */
  lemma UpdateKeepsIds(db: Db, id: string, kwargs: map<string, SqlValue>, other: string)
    ensures GetJob(UpdateJob(db, id, kwargs), other).Some? <==> GetJob(db, other).Some?
  {
    var r := UpdateJob(db, id, kwargs);
    assert "id" !in Updatable;
    forall i | 0 <= i < |db.jobs|
      ensures HasId(r.jobs[i], other) <==> HasId(db.jobs[i], other)
    {
      UpdateJobWrites(db, id, kwargs, i, "id");
    }
  }

  /** The rows whose id differs. */
  function Without(rows: seq<Row>, id: string): (r: seq<Row>)
    ensures |r| <= |rows|
    ensures forall k :: 0 <= k < |r| ==> !HasId(r[k], id) && r[k] in rows
    ensures forall k :: 0 <= k < |rows| && !HasId(rows[k], id) ==> rows[k] in r
    ensures |r| == |rows| <==> forall k :: 0 <= k < |rows| ==> !HasId(rows[k], id)
  {
    if rows == [] then []
    else
      var rest := Without(rows[1..], id);
      if HasId(rows[0], id) then rest else [rows[0]] + rest
  }

  /** `delete_job`: remove the row; the answer says whether one was removed. */
  function DeleteJob(db: Db, id: string): (r: (Db, bool))
    ensures r.0.settings == db.settings && r.0.jobs == Without(db.jobs, id)
    ensures r.1 <==> GetJob(db, id).Some?
    ensures GetJob(r.0, id).None?
  {
    var rows := Without(db.jobs, id);
    (db.(jobs := rows), |rows| < |db.jobs|)
  }

  /** SQLite's text order (code points compared in turn, a prefix first). */
  predicate LexLe(a: string, b: string)
    decreases |a|
  {
    a == [] || (b != [] && (a[0] < b[0] || (a[0] == b[0] && LexLe(a[1..], b[1..]))))
  }

  lemma {:induction false} LexTotal(a: string, b: string)
    ensures LexLe(a, b) || LexLe(b, a)
    decreases |a|
  {
    if a != [] && b != [] && a[0] == b[0] {
      LexTotal(a[1..], b[1..]);
    }
  }

  lemma {:induction false} LexTrans(a: string, b: string, c: string)
    requires LexLe(a, b) && LexLe(b, c)
    ensures LexLe(a, c)
    decreases |a|
  {
    if a != [] && a[0] == b[0] && b[0] == c[0] {
      LexTrans(a[1..], b[1..], c[1..]);
    }
  }

  /** Ordered by `key`, largest first. */
  predicate Descending<T>(xs: seq<T>, key: T -> string) {
    forall i, j :: 0 <= i < j < |xs| ==> LexLe(key(xs[j]), key(xs[i]))
  }

  /** Every element's key is at most `top`. */
  predicate AllAtMost<T>(xs: seq<T>, key: T -> string, top: string) {
    forall k :: 0 <= k < |xs| ==> LexLe(key(xs[k]), top)
  }

  /** Place `x` after every element whose key is at least its own. */
  function Insert<T>(x: T, xs: seq<T>, key: T -> string): (r: seq<T>)
    ensures multiset(r) == multiset(xs) + multiset{x}
    ensures |r| == |xs| + 1
    ensures forall k :: 0 <= k < |r| ==> r[k] == x || r[k] in xs
  {
    if xs == [] then [x]
    else if !LexLe(key(x), key(xs[0])) then [x] + xs
    else
      assert xs == [xs[0]] + xs[1..];
      [xs[0]] + Insert(x, xs[1..], key)
  }

  lemma DescendingTail<T>(xs: seq<T>, key: T -> string)
    requires |xs| > 0 && Descending(xs, key)
    ensures Descending(xs[1..], key) && AllAtMost(xs[1..], key, key(xs[0]))
  {
    var tail := xs[1..];
    forall i, j | 0 <= i < j < |tail|
      ensures LexLe(key(tail[j]), key(tail[i]))
    {
      assert tail[i] == xs[i + 1] && tail[j] == xs[j + 1];
    }
    forall k | 0 <= k < |tail|
      ensures LexLe(key(tail[k]), key(xs[0]))
    {
      assert tail[k] == xs[k + 1];
    }
  }

  lemma ConsDescending<T>(x: T, xs: seq<T>, key: T -> string)
    requires Descending(xs, key) && AllAtMost(xs, key, key(x))
    ensures Descending([x] + xs, key)
  {
    var r := [x] + xs;
    forall i, j | 0 <= i < j < |r|
      ensures LexLe(key(r[j]), key(r[i]))
    {
      assert r[j] == xs[j - 1];
      if i > 0 {
        assert r[i] == xs[i - 1];
      }
    }
  }

  lemma AtMostByMembership<T>(ys: seq<T>, x: T, xs: seq<T>, key: T -> string, top: string)
    requires forall k :: 0 <= k < |ys| ==> ys[k] == x || ys[k] in xs
    requires LexLe(key(x), top) && AllAtMost(xs, key, top)
    ensures AllAtMost(ys, key, top)
  {
    forall k | 0 <= k < |ys|
      ensures LexLe(key(ys[k]), top)
    {
      if ys[k] != x {
        var m :| 0 <= m < |xs| && xs[m] == ys[k];
      }
    }
  }

  lemma {:induction false} InsertSorted<T>(x: T, xs: seq<T>, key: T -> string)
    requires Descending(xs, key)
    ensures Descending(Insert(x, xs, key), key)
  {
    if xs == [] {
    } else if !LexLe(key(x), key(xs[0])) {
      LexTotal(key(x), key(xs[0]));
      DescendingTail(xs, key);
      forall k | 0 <= k < |xs|
        ensures LexLe(key(xs[k]), key(x))
      {
        if k > 0 {
          assert xs[k] == xs[1..][k - 1];
          LexTrans(key(xs[k]), key(xs[0]), key(x));
        }
      }
      ConsDescending(x, xs, key);
    } else {
      DescendingTail(xs, key);
      InsertSorted(x, xs[1..], key);
      var rest := Insert(x, xs[1..], key);
      AtMostByMembership(rest, x, xs[1..], key, key(xs[0]));
      ConsDescending(xs[0], rest, key);
    }
  }

  /** Largest key first by insertion; elements with equal keys keep their order. */
  function SortDescending<T>(xs: seq<T>, key: T -> string): (r: seq<T>)
    ensures multiset(r) == multiset(xs)
    ensures |r| == |xs|
  {
    if xs == [] then []
    else
      var n := |xs| - 1;
      assert xs == xs[..n] + [xs[n]];
      Insert(xs[n], SortDescending(xs[..n], key), key)
  }

  lemma {:induction false} SortSorted<T>(xs: seq<T>, key: T -> string)
    ensures Descending(SortDescending(xs, key), key)
  {
    if xs != [] {
      var n := |xs| - 1;
      SortSorted(xs[..n], key);
      InsertSorted(xs[n], SortDescending(xs[..n], key), key);
    }
  }

  /** The sort key: `started_at`, with `NULL` lowest. */
  function StartedAt(row: Row): string {
    match Col(row, "started_at")
    case SqlText(s) => s
    case _ => ""
  }

  /** The rows of one source type. */
  function OfSource(rows: seq<Row>, sourceType: string): (r: seq<Row>)
    ensures forall k :: 0 <= k < |r| ==> Col(r[k], "source_type") == SqlText(sourceType)
    ensures forall k :: 0 <= k < |rows| ==> (rows[k] in r <==> Col(rows[k], "source_type") == SqlText(sourceType))
    ensures multiset(r) <= multiset(rows)
  {
    if rows == [] then []
    else
      var rest := OfSource(rows[1..], sourceType);
      assert rows == [rows[0]] + rows[1..];
      if Col(rows[0], "source_type") == SqlText(sourceType) then [rows[0]] + rest else rest
  }

  /** The rows `list_jobs` considers: those of a non-empty source type, or all. */
  function Candidates(db: Db, sourceType: Option<string>): seq<Row> {
    if sourceType.Some? && sourceType.value != "" then OfSource(db.jobs, sourceType.value) else db.jobs
  }

  /** Start and length of the `LIMIT`/`OFFSET` window over `n` rows: a
      negative limit is no limit and a negative offset counts as zero. */
  function Window(n: nat, limit: int, offset: int): (r: (nat, nat))
    ensures r.0 + r.1 <= n
    ensures limit >= 0 ==> r.1 <= limit
    ensures 0 <= offset <= n ==> r.0 == offset
    ensures limit < 0 ==> r.0 + r.1 == n
    ensures limit >= 0 && 0 <= offset && offset + limit <= n ==> r.1 == limit
  {
    var skip := if offset < 0 then 0 else if offset > n then n else offset;
    var take := if limit < 0 || limit > n - skip then n - skip else limit;
    (skip, take)
  }

  /** The window of `limit` rows after `offset` of an ordered list. */
  function Paged<T>(sorted: seq<T>, limit: int, offset: int): (r: seq<T>)
    ensures limit >= 0 ==> |r| <= limit
    ensures limit < 0 && offset <= 0 ==> r == sorted
  {
    var w := Window(|sorted|, limit, offset);
    sorted[w.0..w.0 + w.1]
  }

  /** `list_jobs`: filter by a non-empty source type, newest first, then the
      window of `limit` rows after `offset`. */
  function ListJobs(db: Db, limit: int, offset: int, sourceType: Option<string>): (r: seq<Row>)
    ensures limit >= 0 ==> |r| <= limit
  {
    Paged(SortDescending(Candidates(db, sourceType), StartedAt), limit, offset)
  }

  /** Every candidate is a stored job. */
  lemma CandidatesStored(db: Db, sourceType: Option<string>)
    ensures multiset(Candidates(db, sourceType)) <= multiset(db.jobs)
  {
  }

  /** Every candidate for a non-empty source type is of that type. */
  lemma CandidatesOfSource(db: Db, sourceType: string)
    requires sourceType != ""
    ensures forall row :: row in multiset(Candidates(db, Some(sourceType))) ==> Col(row, "source_type") == SqlText(sourceType)
  {
  }

  lemma SliceCounted<T>(xs: seq<T>, skip: nat, take: nat)
    requires skip + take <= |xs|
    ensures multiset(xs[skip..skip + take]) <= multiset(xs)
  {
    assert xs == xs[..skip] + xs[skip..skip + take] + xs[skip + take..];
  }

  lemma SliceDescending<T>(xs: seq<T>, skip: nat, take: nat, key: T -> string)
    requires skip + take <= |xs| && Descending(xs, key)
    ensures Descending(xs[skip..skip + take], key)
  {
    var r := xs[skip..skip + take];
    forall i, j | 0 <= i < j < |r|
      ensures LexLe(key(r[j]), key(r[i]))
    {
      assert r[i] == xs[skip + i] && r[j] == xs[skip + j];
    }
  }

  /** A window holds elements of the list it is taken from, each at most as
      often, and keeps the list's order. */
  lemma PageOfSorted<T>(sorted: seq<T>, limit: int, offset: int, key: T -> string)
    ensures multiset(Paged(sorted, limit, offset)) <= multiset(sorted)
    ensures Descending(sorted, key) ==> Descending(Paged(sorted, limit, offset), key)
  {
    var w := Window(|sorted|, limit, offset);
    SliceCounted(sorted, w.0, w.1);
    if Descending(sorted, key) {
      SliceDescending(sorted, w.0, w.1, key);
    }
  }

  /** A page holds only stored jobs, each at most as often as stored. */
  lemma ListJobsStored(db: Db, limit: int, offset: int, sourceType: Option<string>)
    ensures multiset(ListJobs(db, limit, offset, sourceType)) <= multiset(db.jobs)
  {
    var sorted := SortDescending(Candidates(db, sourceType), StartedAt);
    PageOfSorted(sorted, limit, offset, StartedAt);
    CandidatesStored(db, sourceType);
  }

  lemma AllOf<T>(page: seq<T>, whole: multiset<T>, p: T -> bool)
    requires multiset(page) <= whole && forall x :: x in whole ==> p(x)
    ensures forall k :: 0 <= k < |page| ==> p(page[k])
  {
    forall k | 0 <= k < |page|
      ensures p(page[k])
    {
      assert page[k] in multiset(page);
    }
  }

  /** A page asked for one source type holds only jobs of that type. */
  lemma ListJobsOfSource(db: Db, limit: int, offset: int, sourceType: string)
    requires sourceType != ""
    ensures forall k :: 0 <= k < |ListJobs(db, limit, offset, Some(sourceType))| ==>
      Col(ListJobs(db, limit, offset, Some(sourceType))[k], "source_type") == SqlText(sourceType)
  {
    var rows := Candidates(db, Some(sourceType));
    var sorted := SortDescending(rows, StartedAt);
    PageOfSorted(sorted, limit, offset, StartedAt);
    CandidatesOfSource(db, sourceType);
    AllOf(ListJobs(db, limit, offset, Some(sourceType)), multiset(rows), row => Col(row, "source_type") == SqlText(sourceType));
  }

  /** A page is newest first. */
  lemma ListJobsNewestFirst(db: Db, limit: int, offset: int, sourceType: Option<string>)
    ensures Descending(ListJobs(db, limit, offset, sourceType), StartedAt)
  {
    var rows := Candidates(db, sourceType);
    SortSorted(rows, StartedAt);
    PageOfSorted(SortDescending(rows, StartedAt), limit, offset, StartedAt);
  }

  /** With no limit every job is listed. */
  lemma ListJobsAll(db: Db)
    ensures multiset(ListJobs(db, -1, 0, None)) == multiset(db.jobs)
  {
  }

  /** `output_path LIKE '%date%'`: a non-null path containing `date`. */
  predicate Mentions(row: Row, date: string) {
    Col(row, "output_path").SqlText? && Contains(Col(row, "output_path").s, date)
  }

  /** Rows whose output path mentions `date`. */
  function CountContaining(rows: seq<Row>, date: string): (n: nat)
    ensures n <= |rows|
  {
    if rows == [] then 0
    else
      var n := |rows| - 1;
      CountContaining(rows[..n], date) + (if Mentions(rows[n], date) then 1 else 0)
  }

  /** `get_next_sequence`. */
  function NextSequence(db: Db, date: string): (n: int)
    ensures 1 <= n <= |db.jobs| + 1
  {
    CountContaining(db.jobs, date) + 1
  }

  /** Creating a job whose output path mentions the date moves that date's
      sequence on by one; any other job leaves it. */
  lemma CreateAdvancesSequence(db: Db, id: string, sourceType: string, discInfo: map<string, JsValue>, outputPath: Option<string>, now: string, date: string)
    requires CreateJob(db, id, sourceType, discInfo, outputPath, now).Ok?
    ensures var after := CreateJob(db, id, sourceType, discInfo, outputPath, now).value;
      NextSequence(after, date) == NextSequence(db, date)
        + (if outputPath.Some? && Contains(outputPath.value, date) then 1 else 0)
  {
    var after := CreateJob(db, id, sourceType, discInfo, outputPath, now).value;
    var row := NewRow(id, sourceType, discInfo, outputPath, now);
    assert after.jobs[..|after.jobs| - 1] == db.jobs;
    assert after.jobs[|after.jobs| - 1] == row;
    assert Col(row, "output_path") == OptText(outputPath);
  }

  /** The settings `init` provides, in order. */
  const DefaultSettingRows: seq<(string, string)> := [
    ("output_path", "/output/dvd"),
    ("naming_pattern", "YYYY-MM-DD_rip_NNN"),
    ("auto_eject", "true"),
    ("vhs_output_path", "/output/vhs"),
    ("encoding_preset", "fast"),
    ("crf_quality", "23"),
    ("audio_bitrate", "192k")]

  /** `INSERT OR IGNORE` of each pair: a key already present keeps its
      value, and an absent key takes the value of its first pair. */
  function InsertOrIgnore(settings: map<string, string>, pairs: seq<(string, string)>): (r: map<string, string>)
    ensures forall k :: k in settings ==> k in r && r[k] == settings[k]
    ensures forall i :: 0 <= i < |pairs| ==> pairs[i].0 in r
    ensures forall k :: k in r ==> k in settings || exists i :: 0 <= i < |pairs| && pairs[i].0 == k
    ensures forall k :: k in r && k !in settings ==> FirstPairFor(pairs, k, r[k])
    decreases |pairs|
  {
    if pairs == [] then settings
    else
      var next := if pairs[0].0 in settings then settings else settings[pairs[0].0 := pairs[0].1];
      var r := InsertOrIgnore(next, pairs[1..]);
      assert forall i :: 1 <= i < |pairs| ==> pairs[i] == pairs[1..][i - 1];
      forall k | k in r && k !in settings
        ensures FirstPairFor(pairs, k, r[k])
      {
        if k == pairs[0].0 {
          assert FirstPairAt(pairs, k, r[k], 0);
        } else {
          FirstPairShift(pairs, k, r[k]);
        }
      }
      r
  }

  /** The pair at `i` is the first with key `k`, and it carries `v`. */
  predicate FirstPairAt(pairs: seq<(string, string)>, k: string, v: string, i: nat) {
    i < |pairs| && pairs[i] == (k, v) && forall j :: 0 <= j < i ==> pairs[j].0 != k
  }

  /** The first pair with key `k` carries `v`. */
  predicate FirstPairFor(pairs: seq<(string, string)>, k: string, v: string) {
    exists i: nat :: i < |pairs| && FirstPairAt(pairs, k, v, i)
  }

  lemma FirstPairShift(pairs: seq<(string, string)>, k: string, v: string)
    requires |pairs| > 0 && pairs[0].0 != k && FirstPairFor(pairs[1..], k, v)
    ensures FirstPairFor(pairs, k, v)
  {
    var i: nat :| i < |pairs[1..]| && FirstPairAt(pairs[1..], k, v, i);
    assert FirstPairAt(pairs, k, v, i + 1);
  }

  /** The first pair's value lands under a key that was absent. */
  lemma InsertOrIgnoreFirst(settings: map<string, string>, pairs: seq<(string, string)>)
    requires |pairs| > 0 && pairs[0].0 !in settings
    ensures pairs[0].0 in InsertOrIgnore(settings, pairs)
    ensures InsertOrIgnore(settings, pairs)[pairs[0].0] == pairs[0].1
  {
  }

  /** No key appears in two pairs. */
  predicate DistinctKeys(pairs: seq<(string, string)>) {
    forall i, j :: 0 <= i < j < |pairs| ==> pairs[i].0 != pairs[j].0
  }

  lemma DefaultKeysDistinct()
    ensures DistinctKeys(DefaultSettingRows)
  {
  }

  /** `init`: create the tables if missing and the default settings that
      are absent, each with its default value. */
  function Init(db: Db): (r: Db)
    ensures r.jobs == db.jobs
    ensures forall k :: k in db.settings ==> k in r.settings && r.settings[k] == db.settings[k]
    ensures forall i :: 0 <= i < |DefaultSettingRows| ==> DefaultSettingRows[i].0 in r.settings
    ensures forall k :: k in r.settings ==> k in db.settings || exists i :: 0 <= i < |DefaultSettingRows| && DefaultSettingRows[i].0 == k
    ensures forall i :: 0 <= i < |DefaultSettingRows| && DefaultSettingRows[i].0 !in db.settings ==>
      r.settings[DefaultSettingRows[i].0] == DefaultSettingRows[i].1
  {
    DefaultKeysDistinct();
    InsertedValues(db.settings, DefaultSettingRows);
    db.(settings := InsertOrIgnore(db.settings, DefaultSettingRows))
  }

  /** With distinct keys, every absent key takes its own pair's value. */
  lemma InsertedValues(before: map<string, string>, pairs: seq<(string, string)>)
    requires DistinctKeys(pairs)
    ensures forall i :: 0 <= i < |pairs| && pairs[i].0 !in before ==>
      InsertOrIgnore(before, pairs)[pairs[i].0] == pairs[i].1
  {
    var after := InsertOrIgnore(before, pairs);
    forall i | 0 <= i < |pairs| && pairs[i].0 !in before
      ensures after[pairs[i].0] == pairs[i].1
    {
      var k := pairs[i].0;
      var j: nat :| j < |pairs| && FirstPairAt(pairs, k, after[k], j);
      assert j == i;
    }
  }

  /** Pairs whose keys are all present already insert nothing. */
  lemma {:induction false} InsertOrIgnorePresent(settings: map<string, string>, pairs: seq<(string, string)>)
    requires forall i :: 0 <= i < |pairs| ==> pairs[i].0 in settings
    ensures InsertOrIgnore(settings, pairs) == settings
    decreases |pairs|
  {
    if pairs != [] {
      assert forall i :: 0 <= i < |pairs[1..]| ==> pairs[1..][i] == pairs[i + 1];
      InsertOrIgnorePresent(settings, pairs[1..]);
    }
  }

  /** A second `init` changes nothing. */
  lemma InitIdempotent(db: Db)
    ensures Init(Init(db)) == Init(db)
  {
    InsertOrIgnorePresent(Init(db).settings, DefaultSettingRows);
  }

  /** A setting as `get_settings` hands it out. */
  datatype Setting = SettingBool(b: bool) | SettingText(s: string)

  function Decode(value: string): (r: Setting)
    ensures r.SettingBool? <==> value == "true" || value == "false"
    ensures r.SettingBool? ==> (r.b <==> value == "true")
    ensures r.SettingText? ==> r.s == value
  {
    if value == "true" then SettingBool(true)
    else if value == "false" then SettingBool(false)
    else SettingText(value)
  }

  /** `get_settings`. */
  function GetSettings(db: Db): (r: map<string, Setting>)
    ensures r.Keys == db.settings.Keys
    ensures forall k :: k in r ==> r[k] == Decode(db.settings[k])
  {
    map k | k in db.settings :: Decode(db.settings[k])
  }

  /** After `init` on a fresh store, `get_settings` hands out the
      `Settings` model's defaults: the DVD output path, the naming pattern,
      and `auto_eject` on. */
  lemma InitFresh(db: Db)
    requires db.settings == map[]
    ensures var got := GetSettings(Init(db));
      && "output_path" in got && got["output_path"] == SettingText(Models.DefaultSettings.outputPath)
      && "naming_pattern" in got && got["naming_pattern"] == SettingText(Models.DefaultSettings.namingPattern)
      && "auto_eject" in got && got["auto_eject"] == SettingBool(Models.DefaultSettings.autoEject)
  {
    FreshSetting(db, 0, "output_path", "/output/dvd");
    FreshSetting(db, 1, "naming_pattern", "YYYY-MM-DD_rip_NNN");
    FreshSetting(db, 2, "auto_eject", "true");
  }

  /** The default at position `i` as a fresh store reads it back. */
  lemma FreshSetting(db: Db, i: nat, key: string, value: string)
    requires db.settings == map[]
    requires i < |DefaultSettingRows| && DefaultSettingRows[i] == (key, value)
    ensures key in Init(db).settings && Init(db).settings[key] == value
    ensures key in GetSettings(Init(db)) && GetSettings(Init(db))[key] == Decode(value)
  {
  }

  /** A keyword argument of `update_settings`. */
  datatype PyValue = PyBool(b: bool) | PyInt(i: int) | PyStr(s: string) | PyNone

  /** Booleans as "true"/"false", anything else as `str(value)`. */
  function Encode(v: PyValue): string {
    match v
    case PyBool(b) => if b then "true" else "false"
    case PyInt(i) => IntToString(i)
    case PyStr(s) => s
    case PyNone => "None"
  }

  /** `update_settings`: an upsert of every keyword argument. */
  function UpdateSettings(db: Db, kwargs: map<string, PyValue>): (r: Db)
    ensures r.jobs == db.jobs
    ensures r.settings.Keys == db.settings.Keys + kwargs.Keys
    ensures forall k :: k in kwargs ==> r.settings[k] == Encode(kwargs[k])
    ensures forall k :: k in db.settings && k !in kwargs ==> r.settings[k] == db.settings[k]
  {
    db.(settings := db.settings + map k | k in kwargs :: Encode(kwargs[k]))
  }

  /** A boolean written is read back as the same boolean; a string other
      than "true" and "false" is read back as itself; and the strings "true"
      and "false" come back as booleans. */
  lemma SettingsRoundTrip(db: Db, kwargs: map<string, PyValue>, key: string)
    requires key in kwargs
    ensures kwargs[key].PyBool? ==> GetSettings(UpdateSettings(db, kwargs))[key] == SettingBool(kwargs[key].b)
    ensures kwargs[key].PyStr? && kwargs[key].s != "true" && kwargs[key].s != "false" ==>
      GetSettings(UpdateSettings(db, kwargs))[key] == SettingText(kwargs[key].s)
    ensures kwargs[key] == PyStr("true") ==> GetSettings(UpdateSettings(db, kwargs))[key] == SettingBool(true)
    ensures kwargs[key].PyInt? ==> GetSettings(UpdateSettings(db, kwargs))[key] == SettingText(IntToString(kwargs[key].i))
  {
    if kwargs[key].PyInt? {
      var s := IntToString(kwargs[key].i);
      assert s != "true" by { assert ParseInt("true") == None by { assert !IsDigit("true"[0]); } }
      assert s != "false" by { assert ParseInt("false") == None by { assert !IsDigit("false"[0]); } }
    }
  }
}
