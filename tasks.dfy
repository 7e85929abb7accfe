/**
 * The background analysis task: it records the uploaded file as
 * processing, runs the four analyses, stores their results as report,
 * correlation and anomaly rows in one all-or-nothing commit, and marks the
 * file completed or failed.
 */
module Tasks {
  import opened Common
  import opened Frames
  import opened Stats
  import opened Missing
  import opened Correlations
  import opened Anomalies
  import opened Analysis
  import opened Records

  /** The dict `analyze` returns for immediate display (its timestamp left out). */
  datatype TaskResult = TaskResult(
    basicStats: map<string, ColumnStats>,
    missingValues: MissingReport,
    correlations: CorrelationResult,
    anomalies: seq<ColumnAnomalies>,
    fileName: string,
    rows: nat,
    columns: seq<string>)

  // ---------------------------------------------------------------- the rows a save adds

  /** A statistics dict as the six nullable report columns. */
  function Stored(s: ColumnStats): StoredStats
  {
    StoredStats(Some(s.mean), Some(s.min), Some(s.max), Some(s.median), Some(s.q1), Some(s.q3))
  }

  /** Both missing-value dicts have an entry for `name`. */
  predicate HasKeys(missing: MissingReport, name: string)
  {
    name in missing.perColumn && name in missing.percentage
  }

  predicate KeysPresent(cols: seq<Column>, missing: MissingReport)
  {
    forall k :: 0 <= k < |cols| ==> HasKeys(missing, cols[k].name)
  }

  /** The first column the missing-value dicts have no entry for: the key of the `KeyError` the save raises. */
  function MissingKeyOf(cols: seq<Column>, missing: MissingReport): (r: Option<string>)
    ensures r.None? <==> KeysPresent(cols, missing)
    ensures r.Some? ==> exists k :: 0 <= k < |cols| && cols[k].name == r.value && !HasKeys(missing, r.value)
  {
    if cols == [] then None
    else if !HasKeys(missing, cols[0].name) then Some(cols[0].name)
    else
      var r := MissingKeyOf(cols[1..], missing);
      assert r.Some? ==> exists k :: 0 <= k < |cols[1..]| && cols[1..][k].name == r.value && !HasKeys(missing, r.value);
      r
  }

  /** The `ReportEntry` of one column. */
  function ReportFor(fileId: nat, c: Column, stats: map<string, ColumnStats>, missing: MissingReport): ReportEntry
    requires HasKeys(missing, c.name)
  {
    ReportEntry(fileId, c.name, c.dtype,
                if c.name in stats then Stored(stats[c.name]) else NoStats,
                missing.perColumn[c.name], missing.percentage[c.name])
  }

  /** The report rows of the columns, in column order. */
  function ReportRows(fileId: nat, cols: seq<Column>, stats: map<string, ColumnStats>, missing: MissingReport): seq<ReportEntry>
    requires KeysPresent(cols, missing)
  {
    if cols == [] then []
    else ReportRows(fileId, cols[..|cols| - 1], stats, missing) + [ReportFor(fileId, cols[|cols| - 1], stats, missing)]
  }

  /** One correlation row per strong pair, in list order. */
  function StrongRows(fileId: nat, strong: seq<StrongCorrelation>): seq<CorrelationEntry>
  {
    if strong == [] then []
    else
      var s := strong[|strong| - 1];
      StrongRows(fileId, strong[..|strong| - 1]) + [CorrelationEntry(fileId, s.column1, s.column2, s.correlation)]
  }

  /** No correlation rows for the message form: it has no `strong_correlations` key. */
  function CorrelationRows(fileId: nat, corr: CorrelationResult): seq<CorrelationEntry>
  {
    if corr.Correlations? then StrongRows(fileId, corr.strong) else []
  }

  /** The Z-score row a column would get. */
  function ZScoreEntry(fileId: nat, a: ColumnAnomalies): AnomalyEntry
  {
    AnomalyEntry(fileId, a.column, ZScoreMethod, a.zScore.indices, Some(ZThreshold), a.zScore.count)
  }

  /** The IQR row a column would get. */
  function IqrEntry(fileId: nat, a: ColumnAnomalies): AnomalyEntry
  {
    AnomalyEntry(fileId, a.column, IqrMethod, a.iqr.indices, None, a.iqr.count)
  }

  /** The anomaly rows of one column: one per method whose count is positive, Z-score first. */
  function EntriesFor(fileId: nat, a: ColumnAnomalies): seq<AnomalyEntry>
  {
    (if a.zScore.count > 0 then [ZScoreEntry(fileId, a)] else [])
    + (if a.iqr.count > 0 then [IqrEntry(fileId, a)] else [])
  }

  function AnomalyRows(fileId: nat, anomalies: seq<ColumnAnomalies>): seq<AnomalyEntry>
  {
    if anomalies == [] then []
    else AnomalyRows(fileId, anomalies[..|anomalies| - 1]) + EntriesFor(fileId, anomalies[|anomalies| - 1])
  }

  /** The tables after a successful save: each gains its new rows at the end. */
  function Saved(t: Tables, fileId: nat, cols: seq<Column>, stats: map<string, ColumnStats>,
                 missing: MissingReport, corr: CorrelationResult, anomalies: seq<ColumnAnomalies>): Tables
    requires KeysPresent(cols, missing)
  {
    Tables(t.reports + ReportRows(fileId, cols, stats, missing),
           t.correlations + CorrelationRows(fileId, corr),
           t.anomalies + AnomalyRows(fileId, anomalies),
           t.visualizations)
  }

  // ---------------------------------------------------------------- the rows as added to the session

  function MapSeq<A, B>(s: seq<A>, f: A -> B): seq<B>
  {
    if s == [] then [] else MapSeq(s[..|s| - 1], f) + [f(s[|s| - 1])]
  }

  lemma MapSeqSnoc<A, B>(s: seq<A>, x: A, f: A -> B)
    ensures MapSeq(s + [x], f) == MapSeq(s, f) + [f(x)]
  {
    assert (s + [x])[..|s|] == s;
  }

  lemma MapSeqShort<A, B>(x: A, y: A, f: A -> B)
    ensures MapSeq([], f) == []
    ensures MapSeq([x], f) == [f(x)]
    ensures MapSeq([y], f) == [f(y)]
    ensures MapSeq([x, y], f) == [f(x), f(y)]
  {
    MapSeqSnoc([], x, f);
    MapSeqSnoc([], y, f);
    MapSeqSnoc([x], y, f);
    assert [] + [x] == [x] && [] + [y] == [y] && [x] + [y] == [x, y];
  }

  function AsReport(r: ReportEntry): Record { ReportRecord(r) }
  function AsCorrelation(c: CorrelationEntry): Record { CorrelationRecord(c) }
  function AsAnomaly(a: AnomalyEntry): Record { AnomalyRecord(a) }

  lemma {:induction false} MapSeqConcat<A, B>(a: seq<A>, b: seq<A>, f: A -> B)
    ensures MapSeq(a + b, f) == MapSeq(a, f) + MapSeq(b, f)
    decreases |b|
  {
    if b == [] {
      assert a + b == a;
    } else {
      assert (a + b)[..|a + b| - 1] == a + b[..|b| - 1];
      assert (a + b)[|a + b| - 1] == b[|b| - 1];
      MapSeqConcat(a, b[..|b| - 1], f);
    }
  }

  lemma {:induction false} ReportsOnly(rs: seq<ReportEntry>)
    ensures ReportsIn(MapSeq(rs, AsReport)) == rs
    ensures CorrelationsIn(MapSeq(rs, AsReport)) == [] && AnomaliesIn(MapSeq(rs, AsReport)) == []
  {
    if rs != [] {
      var init := MapSeq(rs[..|rs| - 1], AsReport);
      ReportsOnly(rs[..|rs| - 1]);
      assert (init + [AsReport(rs[|rs| - 1])])[..|init|] == init;
      assert rs == rs[..|rs| - 1] + [rs[|rs| - 1]];
    }
  }

  lemma {:induction false} CorrelationsOnly(cs: seq<CorrelationEntry>)
    ensures CorrelationsIn(MapSeq(cs, AsCorrelation)) == cs
    ensures ReportsIn(MapSeq(cs, AsCorrelation)) == [] && AnomaliesIn(MapSeq(cs, AsCorrelation)) == []
  {
    if cs != [] {
      var init := MapSeq(cs[..|cs| - 1], AsCorrelation);
      CorrelationsOnly(cs[..|cs| - 1]);
      assert (init + [AsCorrelation(cs[|cs| - 1])])[..|init|] == init;
      assert cs == cs[..|cs| - 1] + [cs[|cs| - 1]];
    }
  }

  lemma {:induction false} AnomaliesOnly(rows: seq<AnomalyEntry>)
    ensures AnomaliesIn(MapSeq(rows, AsAnomaly)) == rows
    ensures ReportsIn(MapSeq(rows, AsAnomaly)) == [] && CorrelationsIn(MapSeq(rows, AsAnomaly)) == []
  {
    if rows != [] {
      var init := MapSeq(rows[..|rows| - 1], AsAnomaly);
      AnomaliesOnly(rows[..|rows| - 1]);
      assert (init + [AsAnomaly(rows[|rows| - 1])])[..|init|] == init;
      assert rows == rows[..|rows| - 1] + [rows[|rows| - 1]];
    }
  }

  lemma SplitRecords(r: seq<Record>, c: seq<Record>, a: seq<Record>)
    ensures ReportsIn(r + c + a) == ReportsIn(r) + ReportsIn(c) + ReportsIn(a)
    ensures CorrelationsIn(r + c + a) == CorrelationsIn(r) + CorrelationsIn(c) + CorrelationsIn(a)
    ensures AnomaliesIn(r + c + a) == AnomaliesIn(r) + AnomaliesIn(c) + AnomaliesIn(a)
  {
    RecordsInConcat(r + c, a);
    RecordsInConcat(r, c);
  }

  /** Committing the rows a save adds, in the order it adds them, gives `Saved`. */
  lemma FlushSaved(t: Tables, rs: seq<ReportEntry>, cs: seq<CorrelationEntry>, as_: seq<AnomalyEntry>)
    ensures Flush(t, MapSeq(rs, AsReport) + MapSeq(cs, AsCorrelation) + MapSeq(as_, AsAnomaly))
         == Tables(t.reports + rs, t.correlations + cs, t.anomalies + as_, t.visualizations)
  {
    SplitRecords(MapSeq(rs, AsReport), MapSeq(cs, AsCorrelation), MapSeq(as_, AsAnomaly));
    ReportsOnly(rs);
    CorrelationsOnly(cs);
    AnomaliesOnly(as_);
    assert [] + cs + [] == cs && rs + [] + [] == rs && [] + [] + as_ == as_;
  }

  lemma ReportRowsSnoc(fileId: nat, cols: seq<Column>, k: nat, stats: map<string, ColumnStats>, missing: MissingReport)
    requires k < |cols| && KeysPresent(cols[..k], missing) && HasKeys(missing, cols[k].name)
    ensures KeysPresent(cols[..k + 1], missing)
    ensures ReportRows(fileId, cols[..k + 1], stats, missing)
         == ReportRows(fileId, cols[..k], stats, missing) + [ReportFor(fileId, cols[k], stats, missing)]
  {
    assert cols[..k + 1][..k] == cols[..k];
  }

  lemma StrongRowsSnoc(fileId: nat, strong: seq<StrongCorrelation>, k: nat)
    requires k < |strong|
    ensures StrongRows(fileId, strong[..k + 1])
         == StrongRows(fileId, strong[..k]) + [CorrelationEntry(fileId, strong[k].column1, strong[k].column2, strong[k].correlation)]
  {
    assert strong[..k + 1][..k] == strong[..k];
  }

  lemma {:induction false} FirstMissingKey(cols: seq<Column>, missing: MissingReport, k: nat)
    requires k <= |cols| && KeysPresent(cols[..k], missing)
    requires k < |cols| ==> !HasKeys(missing, cols[k].name)
    ensures MissingKeyOf(cols, missing) == if k < |cols| then Some(cols[k].name) else None
  {
    if k == |cols| {
      assert cols[..k] == cols;
    } else if k > 0 {
      assert cols[1..][..k - 1] == cols[..k][1..];
      assert HasKeys(missing, cols[..k][0].name);
      FirstMissingKey(cols[1..], missing, k - 1);
    }
  }

  // ---------------------------------------------------------------- what a save stores

  /** The report rows are the columns' reports, one per column and in column order. */
  lemma {:induction false} ReportRowsShape(fileId: nat, cols: seq<Column>, stats: map<string, ColumnStats>, missing: MissingReport)
    requires KeysPresent(cols, missing)
    ensures |ReportRows(fileId, cols, stats, missing)| == |cols|
    ensures forall k :: 0 <= k < |cols| ==> ReportRows(fileId, cols, stats, missing)[k] == ReportFor(fileId, cols[k], stats, missing)
  {
    if cols != [] {
      ReportRowsShape(fileId, cols[..|cols| - 1], stats, missing);
    }
  }

  /** What the report of column `c` of a frame with `rows` rows holds. */
  predicate ReportsColumn(e: ReportEntry, fileId: nat, c: Column, rows: nat, stats: map<string, ColumnStats>)
    requires rows > 0
  {
    && e.fileId == fileId && e.column == c.name && e.dataType == c.dtype
    && e.missingCount == NullCount(c.cells)
    && e.missingPercentage == Percent(NullCount(c.cells), rows)
    && 0.0 <= e.missingPercentage <= 100.0
    && (e.stats.mean.Some? <==> c.numeric)
    && (c.numeric ==> c.name in stats && e.stats == Stored(stats[c.name]))
    && (!c.numeric ==> e.stats == NoStats)
  }

  /**
   * Saving a profile stores one report per column of the frame, in frame
   * order, with the column's null count and share of nulls; the statistics
   * are filled exactly for the numeric columns.
   */
  lemma ReportsOfProfile(fileId: nat, df: Frame, stats: map<string, ColumnStats>)
    requires df.Valid() && df.rows > 0
    requires stats.Keys == NameSet(NumericColumns(df.columns))
    ensures KeysPresent(df.columns, AnalyzeMissingValues(df))
    ensures var rows := ReportRows(fileId, df.columns, stats, AnalyzeMissingValues(df));
      && |rows| == |df.columns|
      && forall k :: 0 <= k < |rows| ==> ReportsColumn(rows[k], fileId, df.columns[k], df.rows, stats)
  {
    var missing := AnalyzeMissingValues(df);
    MissingKeysPresent(df);
    var rows := ReportRows(fileId, df.columns, stats, missing);
    ReportRowsShape(fileId, df.columns, stats, missing);
    forall k | 0 <= k < |rows|
      ensures ReportsColumn(rows[k], fileId, df.columns[k], df.rows, stats)
    {
      var c := df.columns[k];
      assert c in df.columns;
      NumericNameIff(df.columns, k);
      assert rows[k] == ReportFor(fileId, c, stats, missing);
    }
  }

  /** The missing-value report has both entries for every column. */
  lemma MissingKeysPresent(df: Frame)
    requires df.Valid() && df.rows > 0
    ensures KeysPresent(df.columns, AnalyzeMissingValues(df))
  {
    var missing := AnalyzeMissingValues(df);
    forall k | 0 <= k < |df.columns| ensures HasKeys(missing, df.columns[k].name) {
      assert df.columns[k] in df.columns;
    }
  }

  /** With distinct names, a column's name is a numeric column's name exactly when it is numeric. */
  lemma NumericNameIff(cols: seq<Column>, k: nat)
    requires DistinctNames(cols) && k < |cols|
    ensures cols[k].name in NameSet(NumericColumns(cols)) <==> cols[k].numeric
  {
    assert cols[k] in cols;
    if cols[k].name in NameSet(NumericColumns(cols)) {
      var d :| d in NumericColumns(cols) && d.name == cols[k].name;
      var j :| 0 <= j < |cols| && cols[j] == d;
      assert j == k;
    }
  }

  /** One correlation row per strong pair, in list order; none for the message form. */
  lemma {:induction false} CorrelationRowsShape(fileId: nat, corr: CorrelationResult)
    ensures corr.NotEnoughColumns? ==> CorrelationRows(fileId, corr) == []
    ensures corr.Correlations? ==>
      && |CorrelationRows(fileId, corr)| == |corr.strong|
      && forall k :: 0 <= k < |corr.strong| ==>
        CorrelationRows(fileId, corr)[k] == CorrelationEntry(fileId, corr.strong[k].column1, corr.strong[k].column2, corr.strong[k].correlation)
  {
    if corr.Correlations? {
      StrongRowsShape(fileId, corr.strong);
    }
  }

  lemma {:induction false} StrongRowsShape(fileId: nat, strong: seq<StrongCorrelation>)
    ensures |StrongRows(fileId, strong)| == |strong|
    ensures forall k :: 0 <= k < |strong| ==>
      StrongRows(fileId, strong)[k] == CorrelationEntry(fileId, strong[k].column1, strong[k].column2, strong[k].correlation)
  {
    if strong != [] {
      StrongRowsShape(fileId, strong[..|strong| - 1]);
    }
  }

  /** A column's rows: its Z-score row when that count is positive, its IQR row when that one is. */
  lemma EntriesForMembers(fileId: nat, a: ColumnAnomalies, e: AnomalyEntry)
    ensures e in EntriesFor(fileId, a) <==>
      (a.zScore.count > 0 && e == ZScoreEntry(fileId, a)) || (a.iqr.count > 0 && e == IqrEntry(fileId, a))
  {
  }

  /** Every anomaly row comes from one column's entries. */
  lemma {:induction false} AnomalyRowsFrom(fileId: nat, anomalies: seq<ColumnAnomalies>, e: AnomalyEntry)
    requires e in AnomalyRows(fileId, anomalies)
    ensures exists a :: a in anomalies && e in EntriesFor(fileId, a)
  {
    var init, last := anomalies[..|anomalies| - 1], anomalies[|anomalies| - 1];
    assert anomalies == init + [last];
    if e in AnomalyRows(fileId, init) {
      AnomalyRowsFrom(fileId, init, e);
      var a :| a in init && e in EntriesFor(fileId, a);
      assert a in anomalies;
    } else {
      assert e in EntriesFor(fileId, last);
    }
  }

  /** Every column's entries are among the anomaly rows. */
  lemma {:induction false} AnomalyRowsHold(fileId: nat, anomalies: seq<ColumnAnomalies>, a: ColumnAnomalies, e: AnomalyEntry)
    requires a in anomalies && e in EntriesFor(fileId, a)
    ensures e in AnomalyRows(fileId, anomalies)
  {
    var init, last := anomalies[..|anomalies| - 1], anomalies[|anomalies| - 1];
    assert anomalies == init + [last];
    if a != last {
      assert a in init;
      AnomalyRowsHold(fileId, init, a, e);
    }
  }

  /**
   * Every stored anomaly row has a positive count and is either a Z-score
   * row with threshold 3 or an IQR row with no threshold; a column gets its
   * Z-score (IQR) row exactly when that method flagged something.
   */
  lemma AnomalyRowsShape(fileId: nat, anomalies: seq<ColumnAnomalies>)
    ensures forall e :: e in AnomalyRows(fileId, anomalies) ==>
      && e.fileId == fileId && e.count > 0
      && ((e.methodName == ZScoreMethod && e.threshold == Some(ZThreshold)) || (e.methodName == IqrMethod && e.threshold == None))
      && exists a :: a in anomalies && (e == ZScoreEntry(fileId, a) || e == IqrEntry(fileId, a))
    ensures forall a :: a in anomalies ==>
      && (a.zScore.count > 0 <==> ZScoreEntry(fileId, a) in AnomalyRows(fileId, anomalies))
      && (a.iqr.count > 0 <==> IqrEntry(fileId, a) in AnomalyRows(fileId, anomalies))
  {
    var rows := AnomalyRows(fileId, anomalies);
    forall e | e in rows
      ensures && e.fileId == fileId && e.count > 0
              && ((e.methodName == ZScoreMethod && e.threshold == Some(ZThreshold)) || (e.methodName == IqrMethod && e.threshold == None))
              && exists a :: a in anomalies && (e == ZScoreEntry(fileId, a) || e == IqrEntry(fileId, a))
    {
      AnomalyRowsFrom(fileId, anomalies, e);
      var a :| a in anomalies && e in EntriesFor(fileId, a);
      EntriesForMembers(fileId, a, e);
    }
    forall a | a in anomalies
      ensures && (a.zScore.count > 0 <==> ZScoreEntry(fileId, a) in rows)
              && (a.iqr.count > 0 <==> IqrEntry(fileId, a) in rows)
    {
      var z, q := ZScoreEntry(fileId, a), IqrEntry(fileId, a);
      EntriesForMembers(fileId, a, z);
      EntriesForMembers(fileId, a, q);
      if a.zScore.count > 0 {
        AnomalyRowsHold(fileId, anomalies, a, z);
      }
      if a.iqr.count > 0 {
        AnomalyRowsHold(fileId, anomalies, a, q);
      }
      if z in rows {
        AnomalyRowsFrom(fileId, anomalies, z);
        var b :| b in anomalies && z in EntriesFor(fileId, b);
        EntriesForMembers(fileId, b, z);
      }
      if q in rows {
        AnomalyRowsFrom(fileId, anomalies, q);
        var b :| b in anomalies && q in EntriesFor(fileId, b);
        EntriesForMembers(fileId, b, q);
      }
    }
  }

  /** Every row a save adds belongs to the file being saved. */
  lemma {:induction false} SavedRowsBelong(fileId: nat, cols: seq<Column>, stats: map<string, ColumnStats>,
                                           missing: MissingReport, corr: CorrelationResult, anomalies: seq<ColumnAnomalies>)
    requires KeysPresent(cols, missing)
    ensures forall r :: r in ReportRows(fileId, cols, stats, missing) ==> r.fileId == fileId
    ensures forall c :: c in CorrelationRows(fileId, corr) ==> c.fileId == fileId
    ensures forall a :: a in AnomalyRows(fileId, anomalies) ==> a.fileId == fileId
  {
    ReportRowsShape(fileId, cols, stats, missing);
    CorrelationRowsShape(fileId, corr);
    AnomalyRowsShape(fileId, anomalies);
  }

  /** A save for a file whose id is below `n` keeps every stored row's file id below `n`. */
  lemma SavedKeepsIds(t: Tables, fileId: nat, cols: seq<Column>, stats: map<string, ColumnStats>,
                      missing: MissingReport, corr: CorrelationResult, anomalies: seq<ColumnAnomalies>)
    requires KeysPresent(cols, missing) && IdsBelow(t, fileId + 1)
    ensures IdsBelow(Saved(t, fileId, cols, stats, missing, corr, anomalies), fileId + 1)
  {
    SavedRowsBelong(fileId, cols, stats, missing, corr, anomalies);
  }

  // ---------------------------------------------------------------- the analysis outcome

  /** `res` is what the four analyses give for `df`, with the frame's row count and column names. */
  predicate ProfileOf(df: Frame, corr: seq<seq<Option<real>>>, res: TaskResult)
    requires df.Valid() && df.rows > 0
    requires var n := |NumericColumns(df.columns)|; n >= 2 ==> IsSquare(corr, n)
  {
    && AnalysesOf(df, corr, res.basicStats, res.missingValues, res.correlations, res.anomalies)
    && res.rows == df.rows
    && res.columns == Names(df.columns)
  }

  /**
   * The four analysis helpers `analyze` calls in turn, and the dict it
   * returns; the Z-score step raises on a numeric column holding a null.
   */
  method RunAnalyses(df: Frame, corr: seq<seq<Option<real>>>, fileName: string)
    returns (r: Result<TaskResult, AnalysisError>)
    requires df.Valid() && df.rows > 0
    requires var n := |NumericColumns(df.columns)|; n >= 2 ==> IsSquare(corr, n)
    ensures r.Err? <==> HasNumericNull(df)
    ensures r.Err? ==> r.error == MaskLengthMismatch
    ensures r.Ok? ==> ProfileOf(df, corr, r.value) && r.value.fileName == fileName
  {
    var stats := CalculateBasicStats(df);
    var missing := AnalyzeMissingValues(df);
    var numeric := NumericColumns(df.columns);
    var correlations := AnalyzeCorrelations(Names(numeric), corr);
    var anomalies := DetectAnomalies(df);
    if anomalies.Err? {
      return Err(anomalies.error);
    }
    r := Ok(TaskResult(stats, missing, correlations, anomalies.value, fileName, df.rows, Names(df.columns)));
  }

  // ---------------------------------------------------------------- the task

  /** `DataAnalysisTask`: one CSV file and the database session it writes to. */
  class DataAnalysisTask {
    const filePath: string
    const fileName: string
    const db: Session

    constructor (filePath: string, fileName: string, db: Session)
      ensures this.filePath == filePath && this.fileName == fileName && this.db == db
    {
      this.filePath, this.fileName, this.db := filePath, fileName, db;
    }

    /**
     * `analyze`. An empty frame is refused before anything is stored.
     * Otherwise the file row is stored as processing, and ends completed
     * (with the save's rows committed) or failed (with the error, and none
     * of the save's rows).
     */
    method Analyze(df: Frame, fileSize: nat, corr: seq<seq<Option<real>>>, uploadTime: int,
                   completedTime: int, failure: Option<string>)
      returns (r: Result<TaskResult, TaskError>, file: UploadedFile?)
      requires df.Valid()
      requires db.Valid() && db.pending == []
      requires var n := |NumericColumns(df.columns)|; n >= 2 ==> IsSquare(corr, n)
      modifies db
      ensures db.Valid() && db.pending == []
      ensures r.Err? <==> df.IsEmpty() || HasNumericNull(df) || failure.Some?
      ensures df.IsEmpty() ==>
        && r == Err(EmptyFile) && file == null
        && db.files == old(db.files) && db.committed == old(db.committed) && db.nextId == old(db.nextId)
      ensures !df.IsEmpty() ==>
        && file != null && fresh(file)
        && db.files == old(db.files) + [file] && file.id == old(db.nextId) && db.nextId == old(db.nextId) + 1
        && file.filename == filePath && file.originalFilename == fileName && file.uploadTime == uploadTime
        && file.fileSize == fileSize && file.rowCount == df.rows && file.columnCount == |df.columns|
      ensures !df.IsEmpty() && r.Err? ==>
        && file != null && file.status == Failed && file.errorMessage == Some(r.error) && file.completedAt == None
        && db.committed == old(db.committed)
        && r.error == (if HasNumericNull(df) then AnalysisFailed(MaskLengthMismatch) else DatabaseError(failure.value))
      ensures r.Ok? ==>
        && file != null && file.status == Completed && file.completedAt == Some(completedTime) && file.errorMessage == None
        && ProfileOf(df, corr, r.value) && r.value.fileName == fileName
        && KeysPresent(df.columns, r.value.missingValues)
        && db.committed == Saved(old(db.committed), file.id, df.columns, r.value.basicStats,
                                 r.value.missingValues, r.value.correlations, r.value.anomalies)
    {
      if df.IsEmpty() {
        return Err(EmptyFile), null;
      }
      file := db.AddFile(filePath, fileName, uploadTime, Processing, fileSize, df.rows, |df.columns|);

      var analysis := RunAnalyses(df, corr, fileName);
      if analysis.Err? {
        file.status, file.errorMessage := Failed, Some(AnalysisFailed(analysis.error));
        return Err(AnalysisFailed(analysis.error)), file;
      }
      var res := analysis.value;
      assert res.missingValues == AnalyzeMissingValues(df);
      MissingKeysPresent(df);
      SavedKeepsIds(db.committed, file.id, df.columns, res.basicStats, res.missingValues, res.correlations, res.anomalies);
      var err := SaveResults(file.id, df, res.basicStats, res.missingValues, res.correlations, res.anomalies, failure);
      if err.Some? {
        file.status, file.errorMessage := Failed, err;
        return Err(err.value), file;
      }
      assert KeysPresent(df.columns, res.missingValues) && failure.None?;
      file.status, file.completedAt := Completed, Some(completedTime);
      r := Ok(res);
    }

    /**
     * `_save_results_to_db`: adds the rows column by column, then the strong
     * pairs, then the anomalies, and commits. Any failure rolls the whole
     * batch back, so either every row is stored or none is.
     */
    method SaveResults(fileId: nat, df: Frame, stats: map<string, ColumnStats>, missing: MissingReport,
                       corr: CorrelationResult, anomalies: seq<ColumnAnomalies>, failure: Option<string>)
      returns (err: Option<TaskError>)
      requires db.pending == []
      modifies db
      ensures db.pending == [] && db.files == old(db.files) && db.nextId == old(db.nextId)
      ensures err.None? <==> KeysPresent(df.columns, missing) && failure.None?
      ensures !KeysPresent(df.columns, missing) ==> err == Some(MissingKey(MissingKeyOf(df.columns, missing).value))
      ensures KeysPresent(df.columns, missing) && failure.Some? ==> err == Some(DatabaseError(failure.value))
      ensures err.Some? ==> db.committed == old(db.committed)
      ensures err.None? ==> db.committed == Saved(old(db.committed), fileId, df.columns, stats, missing, corr, anomalies)
    {
      var missingKey, stop := AddReports(fileId, df.columns, stats, missing);
      if missingKey.Some? {
        db.Rollback();
        return Some(MissingKey(missingKey.value));
      }
      assert df.columns[..stop] == df.columns;
      var reports := ReportRows(fileId, df.columns, stats, missing);
      var correlations := CorrelationRows(fileId, corr);
      var rows := AnomalyRows(fileId, anomalies);
      assert db.pending == MapSeq(reports, AsReport);
      AddCorrelations(fileId, corr);
      AddAnomalies(fileId, anomalies);
      assert db.pending == MapSeq(reports, AsReport) + MapSeq(correlations, AsCorrelation) + MapSeq(rows, AsAnomaly);
      FlushSaved(db.committed, reports, correlations, rows);
      err := db.Commit(failure);
      if err.Some? {
        db.Rollback();
      }
    }

    /** The loop over `df.columns`; a column without a missing-value entry stops it with that column's name. */
    method AddReports(fileId: nat, cols: seq<Column>, stats: map<string, ColumnStats>, missing: MissingReport)
      returns (missingKey: Option<string>, ghost stop: nat)
      modifies db
      ensures missingKey == MissingKeyOf(cols, missing)
      ensures stop <= |cols| && KeysPresent(cols[..stop], missing)
      ensures missingKey == if stop < |cols| then Some(cols[stop].name) else None
      ensures db.pending == old(db.pending) + MapSeq(ReportRows(fileId, cols[..stop], stats, missing), AsReport)
      ensures db.committed == old(db.committed) && db.files == old(db.files) && db.nextId == old(db.nextId)
    {
      var k := 0;
      while k < |cols| && HasKeys(missing, cols[k].name)
        invariant k <= |cols| && KeysPresent(cols[..k], missing)
        invariant db.pending == old(db.pending) + MapSeq(ReportRows(fileId, cols[..k], stats, missing), AsReport)
        invariant db.committed == old(db.committed) && db.files == old(db.files) && db.nextId == old(db.nextId)
      {
        ReportRowsSnoc(fileId, cols, k, stats, missing);
        ghost var rows := ReportRows(fileId, cols[..k], stats, missing);
        var entry := ReportFor(fileId, cols[k], stats, missing);
        MapSeqSnoc(rows, entry, AsReport);
        db.Add(AsReport(entry));
        assert db.pending == old(db.pending) + MapSeq(rows, AsReport) + [AsReport(entry)];
        k := k + 1;
      }
      FirstMissingKey(cols, missing, k);
      missingKey := if k < |cols| then Some(cols[k].name) else None;
      stop := k;
    }

    /** The loop over `strong_correlations`, when the result has that key. */
    method AddCorrelations(fileId: nat, corr: CorrelationResult)
      modifies db
      ensures db.pending == old(db.pending) + MapSeq(CorrelationRows(fileId, corr), AsCorrelation)
      ensures db.committed == old(db.committed) && db.files == old(db.files) && db.nextId == old(db.nextId)
    {
      if corr.NotEnoughColumns? {
        assert db.pending == old(db.pending) + [];
        return;
      }
      var strong := corr.strong;
      for k := 0 to |strong|
        invariant db.pending == old(db.pending) + MapSeq(StrongRows(fileId, strong[..k]), AsCorrelation)
        invariant db.committed == old(db.committed) && db.files == old(db.files) && db.nextId == old(db.nextId)
      {
        var s := strong[k];
        var entry := CorrelationEntry(fileId, s.column1, s.column2, s.correlation);
        ghost var rows := StrongRows(fileId, strong[..k]);
        StrongRowsSnoc(fileId, strong, k);
        MapSeqSnoc(rows, entry, AsCorrelation);
        db.Add(AsCorrelation(entry));
        assert db.pending == old(db.pending) + MapSeq(rows, AsCorrelation) + [AsCorrelation(entry)];
      }
      assert strong[..|strong|] == strong;
    }

    /** The loop over the anomalies dict: a row per method whose count is positive. */
    method AddAnomalies(fileId: nat, anomalies: seq<ColumnAnomalies>)
      modifies db
      ensures db.pending == old(db.pending) + MapSeq(AnomalyRows(fileId, anomalies), AsAnomaly)
      ensures db.committed == old(db.committed) && db.files == old(db.files) && db.nextId == old(db.nextId)
    {
      for k := 0 to |anomalies|
        invariant db.pending == old(db.pending) + MapSeq(AnomalyRows(fileId, anomalies[..k]), AsAnomaly)
        invariant db.committed == old(db.committed) && db.files == old(db.files) && db.nextId == old(db.nextId)
      {
        var a := anomalies[k];
        var before := AnomalyRows(fileId, anomalies[..k]);
        assert anomalies[..k + 1][..k] == anomalies[..k];
        MapSeqConcat(before, EntriesFor(fileId, a), AsAnomaly);
        AddEntries(fileId, a);
      }
      assert anomalies[..|anomalies|] == anomalies;
    }
  
    /** The two `if count > 0` blocks for one column. */
    method AddEntries(fileId: nat, a: ColumnAnomalies)
      modifies db
      ensures db.pending == old(db.pending) + MapSeq(EntriesFor(fileId, a), AsAnomaly)
      ensures db.committed == old(db.committed) && db.files == old(db.files) && db.nextId == old(db.nextId)
    {
      var z := ZScoreEntry(fileId, a);
      var q := IqrEntry(fileId, a);
      MapSeqShort(z, q, AsAnomaly);
      if a.zScore.count > 0 {
        db.Add(AsAnomaly(z));
      }
      if a.iqr.count > 0 {
        db.Add(AsAnomaly(q));
      }
    }
  }
}
