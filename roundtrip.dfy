/**
 * Saving a profile and reloading it: the rows `_save_results_to_db`
 * stores for a file, read back in insertion order by
 * `format_analysis_data`, give back the missing-value accounting, the
 * statistics of exactly the numeric columns, the strong pairs, the
 * anomaly slots of the columns that had an outlier, and the column list.
 */
module RoundTrip {
  import opened Common
  import opened Frames
  import opened Stats
  import opened Missing
  import opened Correlations
  import opened Anomalies
  import opened Analysis
  import opened Records
  import opened Tasks
  import opened Reload

  // ---------------------------------------------------------------- last-write-wins dicts

  /**
   * When every kept element writes the value `m` holds for its key, and
   * every key of `m` is written, the loop rebuilds `m` exactly.
   */
  lemma LastWinsRebuilds<T, V>(s: seq<T>, key: T -> string, keep: T -> bool, val: T -> V, m: map<string, V>)
    requires forall i :: 0 <= i < |s| && keep(s[i]) ==> key(s[i]) in m && val(s[i]) == m[key(s[i])]
    requires forall k :: k in m ==> exists i :: WritesTo(s, key, keep, i, k)
    ensures LastWins(s, key, keep, val) == m
  {
    var d := LastWins(s, key, keep, val);
    forall k ensures (k in d <==> k in m) && (k in d ==> d[k] == m[k]) {
      LastWinsAt(s, key, keep, val, k);
    }
  }

  // ---------------------------------------------------------------- reports

  lemma {:induction false} SumAtSnoc(m: map<string, nat>, keys: seq<string>, k: string)
    requires forall x :: x in keys ==> x in m
    requires k in m
    ensures SumAt(m, keys + [k]) == SumAt(m, keys) + m[k]
  {
    if keys != [] {
      assert (keys + [k])[1..] == keys[1..] + [k];
      SumAtSnoc(m, keys[1..], k);
    }
  }

  /** The running total over the report rows is the per-column counts added up in column order. */
  lemma {:induction false} ReportsTotal(fileId: nat, cols: seq<Column>, stats: map<string, ColumnStats>, missing: MissingReport)
    requires KeysPresent(cols, missing)
    ensures forall x :: x in Names(cols) ==> x in missing.perColumn
    ensures TotalOf(ReportRows(fileId, cols, stats, missing)) == SumAt(missing.perColumn, Names(cols))
  {
    if cols != [] {
      var init, last := cols[..|cols| - 1], cols[|cols| - 1];
      assert KeysPresent(init, missing);
      ReportsTotal(fileId, init, stats, missing);
      var rows := ReportRows(fileId, init, stats, missing);
      assert (rows + [ReportFor(fileId, last, stats, missing)])[..|rows|] == rows;
      assert Names(cols) == Names(init) + [last.name];
      assert HasKeys(missing, last.name);
      SumAtSnoc(missing.perColumn, Names(init), last.name);
    }
  }

  /** Every column name is written by some report row. */
  lemma ReportsWriteEveryColumn(fileId: nat, cols: seq<Column>, stats: map<string, ColumnStats>, missing: MissingReport)
    requires KeysPresent(cols, missing)
    ensures forall k :: k in NameSet(cols) ==>
      exists i :: WritesTo(ReportRows(fileId, cols, stats, missing), ReportColumn, AnyReport, i, k)
  {
    var rows := ReportRows(fileId, cols, stats, missing);
    ReportRowsShape(fileId, cols, stats, missing);
    forall k | k in NameSet(cols)
      ensures exists i :: WritesTo(rows, ReportColumn, AnyReport, i, k)
    {
      var c :| c in cols && c.name == k;
      var i :| 0 <= i < |cols| && cols[i] == c;
      assert WritesTo(rows, ReportColumn, AnyReport, i, k);
    }
  }

  lemma ReportsMissingCounts(fileId: nat, cols: seq<Column>, stats: map<string, ColumnStats>, missing: MissingReport)
    requires KeysPresent(cols, missing) && missing.perColumn.Keys == NameSet(cols)
    ensures LastWins(ReportRows(fileId, cols, stats, missing), ReportColumn, AnyReport, ReportMissingCount) == missing.perColumn
  {
    var rows := ReportRows(fileId, cols, stats, missing);
    ReportRowsShape(fileId, cols, stats, missing);
    ReportsWriteEveryColumn(fileId, cols, stats, missing);
    forall i | 0 <= i < |rows|
      ensures ReportColumn(rows[i]) in missing.perColumn && ReportMissingCount(rows[i]) == missing.perColumn[ReportColumn(rows[i])]
    {
      assert rows[i] == ReportFor(fileId, cols[i], stats, missing);
    }
    LastWinsRebuilds(rows, ReportColumn, AnyReport, ReportMissingCount, missing.perColumn);
  }

  lemma ReportsMissingPercentages(fileId: nat, cols: seq<Column>, stats: map<string, ColumnStats>, missing: MissingReport)
    requires KeysPresent(cols, missing) && missing.percentage.Keys == NameSet(cols)
    ensures LastWins(ReportRows(fileId, cols, stats, missing), ReportColumn, AnyReport, ReportMissingPercentage) == missing.percentage
  {
    var rows := ReportRows(fileId, cols, stats, missing);
    ReportRowsShape(fileId, cols, stats, missing);
    ReportsWriteEveryColumn(fileId, cols, stats, missing);
    forall i | 0 <= i < |rows|
      ensures ReportColumn(rows[i]) in missing.percentage && ReportMissingPercentage(rows[i]) == missing.percentage[ReportColumn(rows[i])]
    {
      assert rows[i] == ReportFor(fileId, cols[i], stats, missing);
    }
    LastWinsRebuilds(rows, ReportColumn, AnyReport, ReportMissingPercentage, missing.percentage);
  }

  /** The report rows of a frame's columns give back its missing-value report. */
  lemma ReportsMissingRoundTrip(fileId: nat, df: Frame, stats: map<string, ColumnStats>)
    requires df.Valid() && df.rows > 0
    ensures KeysPresent(df.columns, AnalyzeMissingValues(df))
    ensures MissingOf(ReportRows(fileId, df.columns, stats, AnalyzeMissingValues(df))) == AnalyzeMissingValues(df)
  {
    var missing := AnalyzeMissingValues(df);
    var cols := df.columns;
    assert KeysPresent(cols, missing) by {
      forall k | 0 <= k < |cols| ensures HasKeys(missing, cols[k].name) {
        assert cols[k] in cols;
      }
    }
    ReportsMissingCounts(fileId, cols, stats, missing);
    ReportsMissingPercentages(fileId, cols, stats, missing);
    ReportsTotal(fileId, cols, stats, missing);
  }

  /** The statistics dict as the report rows store it. */
  function StoredMap(stats: map<string, ColumnStats>): map<string, StoredStats>
  {
    map n | n in stats :: Stored(stats[n])
  }

  /**
   * The reloaded statistics are those of exactly the columns that had
   * statistics: the report of every other column has a null mean.
   */
  lemma ReportsStatsRoundTrip(fileId: nat, cols: seq<Column>, stats: map<string, ColumnStats>, missing: MissingReport)
    requires KeysPresent(cols, missing)
    requires stats.Keys <= NameSet(cols)
    ensures StatsOf(ReportRows(fileId, cols, stats, missing)) == StoredMap(stats)
  {
    var rows := ReportRows(fileId, cols, stats, missing);
    ReportRowsShape(fileId, cols, stats, missing);
    forall k | k in StoredMap(stats)
      ensures exists i :: WritesTo(rows, ReportColumn, HasMean, i, k)
    {
      var c :| c in cols && c.name == k;
      var i :| 0 <= i < |cols| && cols[i] == c;
      assert WritesTo(rows, ReportColumn, HasMean, i, k);
    }
    LastWinsRebuilds(rows, ReportColumn, HasMean, ReportStats, StoredMap(stats));
  }

  /** The reloaded column list is the frame's, in frame order. */
  lemma ReportsColumnsRoundTrip(fileId: nat, cols: seq<Column>, stats: map<string, ColumnStats>, missing: MissingReport)
    requires KeysPresent(cols, missing)
    ensures ColumnsOf(ReportRows(fileId, cols, stats, missing)) == Names(cols)
  {
    ReportRowsShape(fileId, cols, stats, missing);
  }

  // ---------------------------------------------------------------- correlations

  /**
   * Reloading the correlation rows gives back the strong list, which was
   * stored already sorted; the message form stored nothing and reloads as
   * an empty list.
   */
  lemma CorrelationsRoundTrip(fileId: nat, corr: CorrelationResult)
    requires corr.Correlations? ==> SortedByStrength(corr.strong)
    ensures StrongOf(CorrelationRows(fileId, corr)) == (if corr.Correlations? then corr.strong else [])
  {
    var rows := CorrelationRows(fileId, corr);
    CorrelationRowsShape(fileId, corr);
    var back := seq(|rows|, i requires 0 <= i < |rows| => AsStrong(rows[i]));
    if corr.Correlations? {
      assert back == corr.strong;
      SortOfSortedIsIdentity(corr.strong);
    } else {
      assert back == [];
    }
  }

  // ---------------------------------------------------------------- anomalies

  /** A method summary with no flagged row has no indices either (as `Summarize` makes it). */
  predicate Normalized(s: AnomalySummary)
  {
    s.count == 0 ==> s.indices == []
  }

  predicate DistinctAnomalyColumns(anomalies: seq<ColumnAnomalies>)
  {
    forall i, j :: 0 <= i < j < |anomalies| ==> anomalies[i].column != anomalies[j].column
  }

  /** The column gets at least one anomaly row. */
  predicate Persisted(a: ColumnAnomalies)
  {
    a.zScore.count > 0 || a.iqr.count > 0
  }

  lemma SlotsOfSnoc(rows: seq<AnomalyEntry>, e: AnomalyEntry)
    ensures SlotsOf(rows + [e]) ==
      SlotsOf(rows)[e.column := FillSlot(if e.column in SlotsOf(rows) then SlotsOf(rows)[e.column] else EmptySlots, e)]
  {
    assert (rows + [e])[..|rows|] == rows;
  }

  /** Appending the rows of a column not seen before adds that column's slots and nothing else. */
  lemma SlotsOfNewColumn(rows: seq<AnomalyEntry>, fileId: nat, a: ColumnAnomalies)
    requires a.column !in SlotsOf(rows)
    requires Normalized(a.zScore) && Normalized(a.iqr)
    ensures var after := SlotsOf(rows + EntriesFor(fileId, a));
      && (forall c :: c != a.column ==> (c in after <==> c in SlotsOf(rows)) && (c in after ==> after[c] == SlotsOf(rows)[c]))
      && (a.column in after <==> Persisted(a))
      && (Persisted(a) ==> after[a.column] == SlotPair(a.zScore, a.iqr))
  {
    var z, q := ZScoreEntry(fileId, a), IqrEntry(fileId, a);
    assert IqrMethod != ZScoreMethod;
    if a.zScore.count > 0 && a.iqr.count > 0 {
      assert rows + EntriesFor(fileId, a) == (rows + [z]) + [q];
      SlotsOfSnoc(rows, z);
      SlotsOfSnoc(rows + [z], q);
    } else if a.zScore.count > 0 {
      assert rows + EntriesFor(fileId, a) == rows + [z];
      SlotsOfSnoc(rows, z);
    } else if a.iqr.count > 0 {
      assert rows + EntriesFor(fileId, a) == rows + [q];
      SlotsOfSnoc(rows, q);
    } else {
      assert rows + EntriesFor(fileId, a) == rows;
    }
  }

  /** `slots` holds one entry per column of `anomalies` that had an outlier, with both its summaries. */
  ghost predicate SlotsFor(slots: map<string, SlotPair>, anomalies: seq<ColumnAnomalies>)
  {
    && (forall c :: c in slots <==> exists a :: a in anomalies && a.column == c && Persisted(a))
    && (forall a :: a in anomalies && Persisted(a) ==> a.column in slots && slots[a.column] == SlotPair(a.zScore, a.iqr))
  }

  /** The induction step of the anomaly round trip, on the dicts alone. */
  lemma SlotsForSnoc(prev: map<string, SlotPair>, slots: map<string, SlotPair>, init: seq<ColumnAnomalies>, last: ColumnAnomalies)
    requires SlotsFor(prev, init)
    requires forall a :: a in init ==> a.column != last.column
    requires forall c :: c != last.column ==> (c in slots <==> c in prev) && (c in slots ==> slots[c] == prev[c])
    requires last.column in slots <==> Persisted(last)
    requires Persisted(last) ==> slots[last.column] == SlotPair(last.zScore, last.iqr)
    ensures SlotsFor(slots, init + [last])
  {
    var all := init + [last];
    assert forall a :: a in all <==> a in init || a == last;
    forall c ensures c in slots <==> exists a :: a in all && a.column == c && Persisted(a) {
      if c == last.column {
        if c in slots {
          assert last in all;
        }
      } else if exists a :: a in all && a.column == c && Persisted(a) {
        var a :| a in all && a.column == c && Persisted(a);
        assert a in init;
      }
    }
  }

  /**
   * The stored anomaly rows reload to one entry per column that had an
   * outlier, holding both of its method summaries; a column without any
   * is absent.
   */
  lemma {:induction false} AnomaliesRoundTrip(fileId: nat, anomalies: seq<ColumnAnomalies>)
    requires DistinctAnomalyColumns(anomalies)
    requires forall a :: a in anomalies ==> Normalized(a.zScore) && Normalized(a.iqr)
    ensures SlotsFor(SlotsOf(AnomalyRows(fileId, anomalies)), anomalies)
  {
    if anomalies != [] {
      var init, last := anomalies[..|anomalies| - 1], anomalies[|anomalies| - 1];
      assert anomalies == init + [last];
      assert forall a :: a in init ==> a in anomalies;
      assert DistinctAnomalyColumns(init);
      AnomaliesRoundTrip(fileId, init);
      var before := AnomalyRows(fileId, init);
      assert forall a :: a in init ==> a.column != last.column;
      assert last.column !in SlotsOf(before);
      SlotsOfNewColumn(before, fileId, last);
      assert AnomalyRows(fileId, anomalies) == before + EntriesFor(fileId, last);
      SlotsForSnoc(SlotsOf(before), SlotsOf(AnomalyRows(fileId, anomalies)), init, last);
    }
  }

  // ---------------------------------------------------------------- the whole round trip

  /** Each query for a new file id finds exactly the rows its save appended, in the order they were added. */
  lemma QueriesAfterSave(t: Tables, fileId: nat, cols: seq<Column>, stats: map<string, ColumnStats>,
                         missing: MissingReport, corr: CorrelationResult, anomalies: seq<ColumnAnomalies>)
    requires KeysPresent(cols, missing) && IdsBelow(t, fileId)
    ensures var db := Saved(t, fileId, cols, stats, missing, corr, anomalies);
      && ReportsOf(db.reports, fileId) == ReportRows(fileId, cols, stats, missing)
      && CorrelationsOf(db.correlations, fileId) == CorrelationRows(fileId, corr)
      && AnomaliesOf(db.anomalies, fileId) == AnomalyRows(fileId, anomalies)
      && VisualizationsOf(db.visualizations, fileId) == []
  {
    var reports := ReportRows(fileId, cols, stats, missing);
    var correlations := CorrelationRows(fileId, corr);
    var rows := AnomalyRows(fileId, anomalies);
    SavedRowsBelong(fileId, cols, stats, missing, corr, anomalies);
    NewKeyQuery(t.reports, reports, ReportOfFile(fileId));
    NewKeyQuery(t.correlations, correlations, CorrelationOfFile(fileId));
    NewKeyQuery(t.anomalies, rows, AnomalyOfFile(fileId));
    NewKeyQuery(t.visualizations, [], VisualizationOfFile(fileId));
    assert t.visualizations + [] == t.visualizations;
  }

  lemma ColumnAnomaliesShape(c: Column)
    requires NullCount(c.cells) == 0
    ensures ColumnAnomaliesOf(c).column == c.name
    ensures Normalized(ColumnAnomaliesOf(c).zScore) && Normalized(ColumnAnomaliesOf(c).iqr)
  {
  }

  /** The anomaly list of a profile names each numeric column once, with summaries made by `Summarize`. */
  lemma ProfileAnomaliesWellFormed(numeric: seq<Column>, anomalies: seq<ColumnAnomalies>)
    requires DistinctNames(numeric) && |anomalies| == |numeric|
    requires forall k :: 0 <= k < |numeric| ==> NullCount(numeric[k].cells) == 0 && anomalies[k] == ColumnAnomaliesOf(numeric[k])
    ensures DistinctAnomalyColumns(anomalies)
    ensures forall a :: a in anomalies ==> Normalized(a.zScore) && Normalized(a.iqr)
  {
    forall k | 0 <= k < |anomalies|
      ensures anomalies[k].column == numeric[k].name && Normalized(anomalies[k].zScore) && Normalized(anomalies[k].iqr)
    {
      ColumnAnomaliesShape(numeric[k]);
    }
  }

  /** The statistics dict of a profile has only column names as keys. */
  lemma ProfileStatsKeys(df: Frame, corr: seq<seq<Option<real>>>, res: TaskResult)
    requires df.Valid() && df.rows > 0
    requires var n := |NumericColumns(df.columns)|; n >= 2 ==> IsSquare(corr, n)
    requires ProfileOf(df, corr, res)
    ensures res.basicStats.Keys <= NameSet(df.columns)
  {
    forall n | n in res.basicStats ensures n in NameSet(df.columns) {
      var c :| c in NumericColumns(df.columns) && c.name == n;
    }
  }

  /**
   * A successful analysis saved for a new file id and reloaded from the
   * committed tables gives back its missing-value report, its statistics
   * dict, its column list, its strong pairs (none for the message form),
   * the anomaly slots of exactly the numeric columns that had an outlier,
   * and no visualization.
   */
  lemma SaveThenReload(t: Tables, fileId: nat, df: Frame, corr: seq<seq<Option<real>>>, res: TaskResult)
    requires df.Valid() && df.rows > 0
    requires var n := |NumericColumns(df.columns)|; n >= 2 ==> IsSquare(corr, n)
    requires ProfileOf(df, corr, res)
    requires IdsBelow(t, fileId)
    ensures KeysPresent(df.columns, res.missingValues)
    ensures var db := Saved(t, fileId, df.columns, res.basicStats, res.missingValues, res.correlations, res.anomalies);
      var reports := ReportsOf(db.reports, fileId);
      var slots := SlotsOf(AnomaliesOf(db.anomalies, fileId));
      && MissingOf(reports) == res.missingValues
      && StatsOf(reports) == StoredMap(res.basicStats)
      && ColumnsOf(reports) == res.columns
      && StrongOf(CorrelationsOf(db.correlations, fileId))
         == (if res.correlations.Correlations? then res.correlations.strong else [])
      && (forall c :: c in slots <==> exists a :: a in res.anomalies && a.column == c && Persisted(a))
      && (forall a :: a in res.anomalies && Persisted(a) ==> slots[a.column] == SlotPair(a.zScore, a.iqr))
      && VisualsOf(VisualizationsOf(db.visualizations, fileId)) == Visualizations(map[], None, map[])
  {
    assert res.missingValues == AnalyzeMissingValues(df);
    ReportsMissingRoundTrip(fileId, df, res.basicStats);
    QueriesAfterSave(t, fileId, df.columns, res.basicStats, res.missingValues, res.correlations, res.anomalies);
    ProfileStatsKeys(df, corr, res);
    ReportsStatsRoundTrip(fileId, df.columns, res.basicStats, res.missingValues);
    ReportsColumnsRoundTrip(fileId, df.columns, res.basicStats, res.missingValues);
    assert res.correlations.Correlations? ==> SortedByStrength(res.correlations.strong);
    CorrelationsRoundTrip(fileId, res.correlations);
    ProfileAnomaliesWellFormed(NumericColumns(df.columns), res.anomalies);
    AnomaliesRoundTrip(fileId, res.anomalies);
  }

  /** `data` is the reloaded form of the displayed result `res` of a file named `fileName`. */
  ghost predicate ReloadAgrees(data: AnalysisData, res: TaskResult, fileName: string, analysisTime: int)
  {
    && data.missingValues == res.missingValues
    && data.basicStats == StoredMap(res.basicStats)
    && data.strongCorrelations == (if res.correlations.Correlations? then res.correlations.strong else [])
    && (forall c :: c in data.anomalies <==> exists a :: a in res.anomalies && a.column == c && Persisted(a))
    && (forall a :: a in res.anomalies && Persisted(a) ==> data.anomalies[a.column] == SlotPair(a.zScore, a.iqr))
    && data.metadata.rows == res.rows && data.metadata.columns == res.columns
    && data.metadata.fileName == fileName
    && data.metadata.analysisTime == analysisTime
  }

  /** The reload of a completed file whose rows were saved by a successful analysis agrees with that analysis. */
  lemma ReloadOfSavedFile(file: UploadedFile, t: Tables, df: Frame, corr: seq<seq<Option<real>>>, res: TaskResult)
    requires df.Valid() && df.rows > 0
    requires var n := |NumericColumns(df.columns)|; n >= 2 ==> IsSquare(corr, n)
    requires ProfileOf(df, corr, res)
    requires IdsBelow(t, file.id)
    requires file.completedAt.Some? && file.rowCount == df.rows
    ensures KeysPresent(df.columns, res.missingValues)
    ensures ReloadAgrees(Reloaded(file, Saved(t, file.id, df.columns, res.basicStats, res.missingValues, res.correlations, res.anomalies)),
                         res, file.originalFilename, file.completedAt.value - file.uploadTime)
  {
    SaveThenReload(t, file.id, df, corr, res);
    var db := Saved(t, file.id, df.columns, res.basicStats, res.missingValues, res.correlations, res.anomalies);
    var reports := ReportsOf(db.reports, file.id);
    var data := Reloaded(file, db);
    assert data.missingValues == MissingOf(reports) && data.basicStats == StatsOf(reports);
    assert data.strongCorrelations == StrongOf(CorrelationsOf(db.correlations, file.id));
    assert data.anomalies == SlotsOf(AnomaliesOf(db.anomalies, file.id));
    assert data.metadata.columns == ColumnsOf(reports) && data.metadata.rows == res.rows;
  }

  /**
   * The task's `analyze` followed by `format_analysis_data` on the file it
   * created: on success, the reloaded profile agrees with the one returned
   * for immediate display.
   */
  method AnalyzeThenReload(task: DataAnalysisTask, df: Frame, fileSize: nat, corr: seq<seq<Option<real>>>,
                           uploadTime: int, completedTime: int)
    returns (r: Result<TaskResult, TaskError>, reloaded: Option<AnalysisData>)
    requires df.Valid()
    requires task.db.Valid() && task.db.pending == []
    requires var n := |NumericColumns(df.columns)|; n >= 2 ==> IsSquare(corr, n)
    modifies task.db
    ensures r.Err? <==> df.IsEmpty() || HasNumericNull(df)
    ensures r.Ok? <==> reloaded.Some?
    ensures r.Ok? ==> ReloadAgrees(reloaded.value, r.value, task.fileName, completedTime - uploadTime)
  {
    ghost var before := task.db.committed;
    var file;
    r, file := task.Analyze(df, fileSize, corr, uploadTime, completedTime, None);
    if r.Err? {
      return r, None;
    }
    ReloadOfSavedFile(file, before, df, corr, r.value);
    var data := FormatAnalysisData(file, task.db.committed);
    reloaded := Some(data.value);
  }
}
