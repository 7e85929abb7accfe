/**
 * The stored side of a profile: the rows of the `file_reports`,
 * `correlations`, `anomalies` and visualization tables, the uploaded-file
 * row, and a database session that collects added rows until a commit
 * appends them to their tables or a rollback discards them.
 */
module Records {
  import opened Common
  import opened Frames

  /** The numeric columns of a `file_reports` row; all null for a non-numeric column. */
  datatype StoredStats = StoredStats(
    mean: Option<Float>,
    minValue: Option<Float>,
    maxValue: Option<Float>,
    median: Option<Float>,
    q1: Option<Float>,
    q3: Option<Float>)

  const NoStats := StoredStats(None, None, None, None, None, None)

  datatype ReportEntry = ReportEntry(
    fileId: nat,
    column: string,
    dataType: string,
    stats: StoredStats,
    missingCount: nat,
    missingPercentage: real)

  datatype CorrelationEntry = CorrelationEntry(fileId: nat, column1: string, column2: string, correlation: real)

  /** The `method` tags of the anomalies table. */
  const ZScoreMethod := "z_score"
  const IqrMethod := "iqr"

  datatype AnomalyEntry = AnomalyEntry(
    fileId: nat,
    column: string,
    methodName: string,
    indices: seq<nat>,
    threshold: Option<real>,
    count: nat)

  /** A visualization row: a chart of some type, optionally for one column, with its JSON payload. */
  datatype VisualizationEntry = VisualizationEntry(fileId: nat, column: string, visualizationType: string, data: string)

  /** A row added to the session. */
  datatype Record =
    | ReportRecord(report: ReportEntry)
    | CorrelationRecord(correlation: CorrelationEntry)
    | AnomalyRecord(anomaly: AnomalyEntry)

  /** The committed contents of the result tables, each in insertion order. */
  datatype Tables = Tables(
    reports: seq<ReportEntry>,
    correlations: seq<CorrelationEntry>,
    anomalies: seq<AnomalyEntry>,
    visualizations: seq<VisualizationEntry>)

  // ---------------------------------------------------------------- commit

  function ReportsIn(ps: seq<Record>): seq<ReportEntry>
  {
    if ps == [] then []
    else ReportsIn(ps[..|ps| - 1]) + (if ps[|ps| - 1].ReportRecord? then [ps[|ps| - 1].report] else [])
  }

  function CorrelationsIn(ps: seq<Record>): seq<CorrelationEntry>
  {
    if ps == [] then []
    else CorrelationsIn(ps[..|ps| - 1]) + (if ps[|ps| - 1].CorrelationRecord? then [ps[|ps| - 1].correlation] else [])
  }

  function AnomaliesIn(ps: seq<Record>): seq<AnomalyEntry>
  {
    if ps == [] then []
    else AnomaliesIn(ps[..|ps| - 1]) + (if ps[|ps| - 1].AnomalyRecord? then [ps[|ps| - 1].anomaly] else [])
  }

  /** Committing appends each pending row to its own table, keeping the order in which the rows were added. */
  function Flush(t: Tables, pending: seq<Record>): Tables
  {
    Tables(t.reports + ReportsIn(pending), t.correlations + CorrelationsIn(pending),
           t.anomalies + AnomaliesIn(pending), t.visualizations)
  }

  lemma {:induction false} RecordsInConcat(a: seq<Record>, b: seq<Record>)
    ensures ReportsIn(a + b) == ReportsIn(a) + ReportsIn(b)
    ensures CorrelationsIn(a + b) == CorrelationsIn(a) + CorrelationsIn(b)
    ensures AnomaliesIn(a + b) == AnomaliesIn(a) + AnomaliesIn(b)
    decreases |b|
  {
    if b == [] {
      assert a + b == a;
    } else {
      var b', last := b[..|b| - 1], b[|b| - 1];
      assert (a + b)[..|a + b| - 1] == a + b';
      assert (a + b)[|a + b| - 1] == last;
      RecordsInConcat(a, b');
      var r := if last.ReportRecord? then [last.report] else [];
      var c := if last.CorrelationRecord? then [last.correlation] else [];
      var n := if last.AnomalyRecord? then [last.anomaly] else [];
      assert ReportsIn(a + b) == (ReportsIn(a) + ReportsIn(b')) + r;
      assert CorrelationsIn(a + b) == (CorrelationsIn(a) + CorrelationsIn(b')) + c;
      assert AnomaliesIn(a + b) == (AnomaliesIn(a) + AnomaliesIn(b')) + n;
    }
  }

  // ---------------------------------------------------------------- queries

  /** The elements of `s` that `keep` accepts, in their order. */
  function Filter<T>(s: seq<T>, keep: T -> bool): seq<T>
  {
    if s == [] then []
    else Filter(s[..|s| - 1], keep) + (if keep(s[|s| - 1]) then [s[|s| - 1]] else [])
  }

  lemma {:induction false} FilterConcat<T>(a: seq<T>, b: seq<T>, keep: T -> bool)
    ensures Filter(a + b, keep) == Filter(a, keep) + Filter(b, keep)
    decreases |b|
  {
    if b == [] {
      assert a + b == a;
    } else {
      assert (a + b)[..|a + b| - 1] == a + b[..|b| - 1];
      assert (a + b)[|a + b| - 1] == b[|b| - 1];
      FilterConcat(a, b[..|b| - 1], keep);
    }
  }

  lemma {:induction false} FilterKeepsAll<T>(s: seq<T>, keep: T -> bool)
    requires forall i :: 0 <= i < |s| ==> keep(s[i])
    ensures Filter(s, keep) == s
  {
    if s != [] {
      FilterKeepsAll(s[..|s| - 1], keep);
    }
  }

  lemma {:induction false} FilterKeepsNone<T>(s: seq<T>, keep: T -> bool)
    requires forall i :: 0 <= i < |s| ==> !keep(s[i])
    ensures Filter(s, keep) == []
  {
    if s != [] {
      FilterKeepsNone(s[..|s| - 1], keep);
    }
  }

  /** The rows belonging to file `id`. */
  function ReportOfFile(id: nat): ReportEntry -> bool { (r: ReportEntry) => r.fileId == id }
  function CorrelationOfFile(id: nat): CorrelationEntry -> bool { (c: CorrelationEntry) => c.fileId == id }
  function AnomalyOfFile(id: nat): AnomalyEntry -> bool { (a: AnomalyEntry) => a.fileId == id }
  function VisualizationOfFile(id: nat): VisualizationEntry -> bool { (v: VisualizationEntry) => v.fileId == id }

  /** `query(ReportEntry).filter(ReportEntry.file_id == id).all()`, in insertion order; likewise for the other tables. */
  function ReportsOf(rs: seq<ReportEntry>, id: nat): seq<ReportEntry>
  {
    Filter(rs, ReportOfFile(id))
  }

  function CorrelationsOf(cs: seq<CorrelationEntry>, id: nat): seq<CorrelationEntry>
  {
    Filter(cs, CorrelationOfFile(id))
  }

  function AnomaliesOf(rows: seq<AnomalyEntry>, id: nat): seq<AnomalyEntry>
  {
    Filter(rows, AnomalyOfFile(id))
  }

  function VisualizationsOf(vs: seq<VisualizationEntry>, id: nat): seq<VisualizationEntry>
  {
    Filter(vs, VisualizationOfFile(id))
  }

  /** Rows appended for a new key are found, and the earlier rows are not. */
  lemma FilterAfterAppend<T>(before: seq<T>, added: seq<T>, keep: T -> bool)
    requires forall i :: 0 <= i < |before| ==> !keep(before[i])
    requires forall i :: 0 <= i < |added| ==> keep(added[i])
    ensures Filter(before + added, keep) == added
  {
    FilterConcat(before, added, keep);
    FilterKeepsNone(before, keep);
    FilterKeepsAll(added, keep);
  }

  /** Every row of every table belongs to a file whose id is below `n`. */
  predicate IdsBelow(t: Tables, n: nat)
  {
    (forall r :: r in t.reports ==> r.fileId < n) &&
    (forall c :: c in t.correlations ==> c.fileId < n) &&
    (forall a :: a in t.anomalies ==> a.fileId < n) &&
    (forall v :: v in t.visualizations ==> v.fileId < n)
  }

  /** `FilterAfterAppend` stated with membership rather than positions. */
  lemma NewKeyQuery<T>(before: seq<T>, added: seq<T>, keep: T -> bool)
    requires forall x :: x in before ==> !keep(x)
    requires forall x :: x in added ==> keep(x)
    ensures Filter(before + added, keep) == added
  {
    assert forall i :: 0 <= i < |before| ==> before[i] in before;
    assert forall i :: 0 <= i < |added| ==> added[i] in added;
    FilterAfterAppend(before, added, keep);
  }

  // ---------------------------------------------------------------- file row

  /** `uploaded_files.status`; new rows default to pending. */
  datatype Status = Pending | Processing | Completed | Failed

  /** Why an analysis task failed; the stored error message is this error's text. */
  datatype TaskError =
    | EmptyFile
    | AnalysisFailed(reason: AnalysisError)
    | MissingKey(column: string)
    | DatabaseError(message: string)

  /** `UploadedFile`: the row the task creates and then updates in place. Times are seconds. */
  class UploadedFile {
    const id: nat
    const filename: string
    const originalFilename: string
    const uploadTime: int
    var status: Status
    var errorMessage: Option<TaskError>
    const fileSize: nat
    const rowCount: nat
    const columnCount: nat
    var completedAt: Option<int>

    constructor (id: nat, filename: string, originalFilename: string, uploadTime: int,
                 status: Status, fileSize: nat, rowCount: nat, columnCount: nat)
      ensures this.id == id && this.filename == filename && this.originalFilename == originalFilename
      ensures this.uploadTime == uploadTime && this.status == status
      ensures this.fileSize == fileSize && this.rowCount == rowCount && this.columnCount == columnCount
      ensures errorMessage == None && completedAt == None
    {
      this.id, this.filename, this.originalFilename := id, filename, originalFilename;
      this.uploadTime, this.status := uploadTime, status;
      this.fileSize, this.rowCount, this.columnCount := fileSize, rowCount, columnCount;
      errorMessage, completedAt := None, None;
    }
  }

  // ---------------------------------------------------------------- session

  /**
   * A database session: the files table, the committed result tables, the
   * rows added since the last commit, and the next primary key to hand out.
   */
  class Session {
    var files: seq<UploadedFile>
    var committed: Tables
    var pending: seq<Record>
    var nextId: nat

    /** Every stored row refers to a file id that has already been handed out. */
    predicate Valid()
      reads this
    {
      IdsBelow(committed, nextId)
    }

    constructor (t: Tables, nextId: nat)
      requires IdsBelow(t, nextId)
      ensures Valid()
      ensures files == [] && committed == t && pending == [] && this.nextId == nextId
    {
      files, committed, pending, this.nextId := [], t, [], nextId;
    }

    /** `db.add(row)`: the row waits for the next commit. */
    method Add(r: Record)
      modifies this
      ensures pending == old(pending) + [r]
      ensures files == old(files) && committed == old(committed) && nextId == old(nextId)
    {
      pending := pending + [r];
    }

    /**
     * `db.commit()`. `failure` is what the database answers: `None` when the
     * commit goes through, or the error text. A failed commit changes nothing.
     */
    method Commit(failure: Option<string>) returns (err: Option<TaskError>)
      modifies this
      ensures err.None? <==> failure.None?
      ensures failure.Some? ==> err == Some(DatabaseError(failure.value)) && pending == old(pending) && committed == old(committed)
      ensures failure.None? ==> committed == Flush(old(committed), old(pending)) && pending == []
      ensures files == old(files) && nextId == old(nextId)
    {
      if failure.Some? {
        return Some(DatabaseError(failure.value));
      }
      committed := Flush(committed, pending);
      pending := [];
      err := None;
    }

    /** `db.rollback()`: every row added since the last commit is dropped. */
    method Rollback()
      modifies this
      ensures pending == [] && committed == old(committed)
      ensures files == old(files) && nextId == old(nextId)
    {
      pending := [];
    }

    /**
     * `db.add(file_entry); db.commit(); db.refresh(file_entry)`: the new row
     * gets the next primary key. This commit is taken to succeed.
     */
    method AddFile(filename: string, originalFilename: string, uploadTime: int,
                   status: Status, fileSize: nat, rowCount: nat, columnCount: nat) returns (f: UploadedFile)
      requires Valid() && pending == []
      modifies this
      ensures Valid() && fresh(f)
      ensures f.id == old(nextId) && nextId == old(nextId) + 1
      ensures f.filename == filename && f.originalFilename == originalFilename && f.uploadTime == uploadTime
      ensures f.status == status && f.errorMessage == None && f.completedAt == None
      ensures f.fileSize == fileSize && f.rowCount == rowCount && f.columnCount == columnCount
      ensures files == old(files) + [f] && committed == old(committed) && pending == []
    {
      f := new UploadedFile(nextId, filename, originalFilename, uploadTime, status, fileSize, rowCount, columnCount);
      files := files + [f];
      nextId := nextId + 1;
    }
  }
}
