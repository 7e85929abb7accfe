/**
 * `format_analysis_data`: rebuilds a profile from the rows stored for one
 * uploaded file. Report rows give the basic statistics and the
 * missing-value accounting, correlation rows the strong pairs (sorted again
 * by strength), anomaly rows the per-column method slots, and
 * visualization rows the charts; the database queries are the committed
 * tables filtered by file id.
 */
module Reload {
  import opened Common
  import opened Missing
  import opened Correlations
  import opened Anomalies
  import opened Records

  /** A chart payload together with its type tag. */
  datatype Chart = Chart(data: string, chartType: string)

  datatype Visualizations = Visualizations(
    histograms: map<string, Chart>,
    heatmap: Option<Chart>,
    boxplots: map<string, Chart>)

  /** The `z_score_anomalies` and `iqr_anomalies` entries of one column. */
  datatype SlotPair = SlotPair(zScore: AnomalySummary, iqr: AnomalySummary)

  /** The reloaded `metadata`; times are seconds. */
  datatype ReloadMetadata = ReloadMetadata(
    timestamp: int,
    fileName: string,
    rows: nat,
    columns: seq<string>,
    uploadTime: int,
    analysisTime: int)

  datatype AnalysisData = AnalysisData(
    basicStats: map<string, StoredStats>,
    missingValues: MissingReport,
    strongCorrelations: seq<StrongCorrelation>,
    anomalies: map<string, SlotPair>,
    visualizations: Visualizations,
    metadata: ReloadMetadata)

  /** `analysis_completed_at.isoformat()` raises when the file was never completed. */
  datatype ReloadError = NotCompleted

  const HistogramType := "histogram"
  const HeatmapType := "heatmap"
  const BoxplotType := "boxplot"

  // ---------------------------------------------------------------- dicts filled in a loop

  /**
   * The dict a loop builds by `d[key(t)] = val(t)` for each `t` of `s`
   * that `keep` accepts, in order: a later write to a key replaces an
   * earlier one.
   */
  function LastWins<T, V>(s: seq<T>, key: T -> string, keep: T -> bool, val: T -> V): map<string, V>
  {
    if s == [] then map[]
    else
      var m := LastWins(s[..|s| - 1], key, keep, val);
      var t := s[|s| - 1];
      if keep(t) then m[key(t) := val(t)] else m
  }

  /** Element i of s is written to key k. */
  predicate WritesTo<T>(s: seq<T>, key: T -> string, keep: T -> bool, i: int, k: string)
  {
    0 <= i < |s| && keep(s[i]) && key(s[i]) == k
  }

  /**
   * A key is in the dict exactly when some kept element writes it, and its
   * value comes from the last element that does.
   */
  lemma {:induction false} LastWinsAt<T, V>(s: seq<T>, key: T -> string, keep: T -> bool, val: T -> V, k: string)
    ensures k in LastWins(s, key, keep, val) <==> exists i :: WritesTo(s, key, keep, i, k)
    ensures k in LastWins(s, key, keep, val) ==>
      exists i :: WritesTo(s, key, keep, i, k) && LastWins(s, key, keep, val)[k] == val(s[i])
        && forall j :: i < j < |s| ==> !WritesTo(s, key, keep, j, k)
  {
    if s != [] {
      var init := s[..|s| - 1];
      var n := |s| - 1;
      LastWinsAt(init, key, keep, val, k);
      assert forall i :: WritesTo(init, key, keep, i, k) ==> WritesTo(s, key, keep, i, k);
      assert forall i :: 0 <= i < n && WritesTo(s, key, keep, i, k) ==> WritesTo(init, key, keep, i, k);
      if WritesTo(s, key, keep, n, k) {
        assert LastWins(s, key, keep, val)[k] == val(s[n]);
      }
    }
  }

  // ---------------------------------------------------------------- reports

  function ReportColumn(r: ReportEntry): string { r.column }
  function HasMean(r: ReportEntry): bool { r.stats.mean.Some? }
  function AnyReport(r: ReportEntry): bool { true }
  function ReportStats(r: ReportEntry): StoredStats { r.stats }
  function ReportMissingCount(r: ReportEntry): nat { r.missingCount }
  function ReportMissingPercentage(r: ReportEntry): real { r.missingPercentage }

  /** `basic_stats`: a column's statistics, written only by report rows whose mean is not null. */
  function StatsOf(reports: seq<ReportEntry>): map<string, StoredStats>
  {
    LastWins(reports, ReportColumn, HasMean, ReportStats)
  }

  /** The running `total_missing`. */
  function TotalOf(reports: seq<ReportEntry>): nat
  {
    if reports == [] then 0 else TotalOf(reports[..|reports| - 1]) + reports[|reports| - 1].missingCount
  }

  /** `missing_values`. */
  function MissingOf(reports: seq<ReportEntry>): MissingReport
  {
    MissingReport(TotalOf(reports),
                  LastWins(reports, ReportColumn, AnyReport, ReportMissingCount),
                  LastWins(reports, ReportColumn, AnyReport, ReportMissingPercentage))
  }

  /** `[report.column for report in reports]`. */
  function ColumnsOf(reports: seq<ReportEntry>): (r: seq<string>)
    ensures |r| == |reports|
    ensures forall i :: 0 <= i < |reports| ==> r[i] == reports[i].column
  {
    seq(|reports|, i requires 0 <= i < |reports| => reports[i].column)
  }

  /** `basic_stats` holds exactly the columns of report rows whose mean is not null. */
  lemma StatsKeys(reports: seq<ReportEntry>)
    ensures forall c :: c in StatsOf(reports) <==>
      exists i :: 0 <= i < |reports| && reports[i].column == c && reports[i].stats.mean.Some?
  {
    forall c ensures c in StatsOf(reports) <==>
      exists i :: 0 <= i < |reports| && reports[i].column == c && reports[i].stats.mean.Some?
    {
      LastWinsAt(reports, ReportColumn, HasMean, ReportStats, c);
      if c in StatsOf(reports) {
        var i :| WritesTo(reports, ReportColumn, HasMean, i, c);
        assert reports[i].column == c && reports[i].stats.mean.Some?;
      } else {
        forall i | 0 <= i < |reports| ensures !(reports[i].column == c && reports[i].stats.mean.Some?) {
          assert !WritesTo(reports, ReportColumn, HasMean, i, c);
        }
      }
    }
  }

  /** `missing_per_column` and `missing_percentage` have one key per report column. */
  lemma MissingKeys(reports: seq<ReportEntry>)
    ensures forall c :: c in MissingOf(reports).perColumn <==> exists i :: 0 <= i < |reports| && reports[i].column == c
    ensures MissingOf(reports).perColumn.Keys == MissingOf(reports).percentage.Keys
  {
    forall c ensures (c in MissingOf(reports).perColumn <==> exists i :: 0 <= i < |reports| && reports[i].column == c)
                  && (c in MissingOf(reports).percentage <==> c in MissingOf(reports).perColumn)
    {
      LastWinsAt(reports, ReportColumn, AnyReport, ReportMissingCount, c);
      LastWinsAt(reports, ReportColumn, AnyReport, ReportMissingPercentage, c);
      if c in MissingOf(reports).perColumn {
        var i :| WritesTo(reports, ReportColumn, AnyReport, i, c);
        assert reports[i].column == c;
      } else {
        forall i | 0 <= i < |reports| ensures reports[i].column != c {
          assert !WritesTo(reports, ReportColumn, AnyReport, i, c);
        }
      }
    }
  }

  /** The loop over the report rows. */
  method FormatReports(reports: seq<ReportEntry>) returns (basicStats: map<string, StoredStats>, missing: MissingReport)
    ensures basicStats == StatsOf(reports)
    ensures missing == MissingOf(reports)
  {
    basicStats := map[];
    var total: nat := 0;
    var perColumn: map<string, nat> := map[];
    var percentage: map<string, real> := map[];
    for k := 0 to |reports|
      invariant basicStats == StatsOf(reports[..k])
      invariant total == TotalOf(reports[..k])
      invariant perColumn == LastWins(reports[..k], ReportColumn, AnyReport, ReportMissingCount)
      invariant percentage == LastWins(reports[..k], ReportColumn, AnyReport, ReportMissingPercentage)
    {
      var report := reports[k];
      assert reports[..k + 1][..k] == reports[..k];
      if report.stats.mean.Some? {
        basicStats := basicStats[report.column := report.stats];
      }
      perColumn := perColumn[report.column := report.missingCount];
      percentage := percentage[report.column := report.missingPercentage];
      total := total + report.missingCount;
    }
    assert reports[..|reports|] == reports;
    missing := MissingReport(total, perColumn, percentage);
  }

  // ---------------------------------------------------------------- correlations

  function AsStrong(c: CorrelationEntry): StrongCorrelation
  {
    StrongCorrelation(c.column1, c.column2, c.correlation)
  }

  /** The `strong_correlations` list: one entry per stored row, sorted by descending |r|. */
  function StrongOf(rows: seq<CorrelationEntry>): (r: seq<StrongCorrelation>)
    ensures SortedByStrength(r)
    ensures multiset(r) == multiset(seq(|rows|, i requires 0 <= i < |rows| => AsStrong(rows[i])))
  {
    SortByStrength(seq(|rows|, i requires 0 <= i < |rows| => AsStrong(rows[i])))
  }

  /** Sorting the reloaded list again changes nothing. */
  lemma ResortIsIdentity(rows: seq<CorrelationEntry>)
    ensures |StrongOf(rows)| == |rows|
    ensures SortByStrength(StrongOf(rows)) == StrongOf(rows)
  {
    var s := StrongOf(rows);
    assert |multiset(s)| == |rows|;
    SortOfSortedIsIdentity(s);
  }

  // ---------------------------------------------------------------- anomalies

  const EmptySummary := AnomalySummary(0, [])
  const EmptySlots := SlotPair(EmptySummary, EmptySummary)

  function SummaryOf(e: AnomalyEntry): AnomalySummary
  {
    AnomalySummary(e.count, e.indices)
  }

  /** The `z_score` method fills the Z-score slot; any other method string fills the IQR slot. */
  function FillSlot(p: SlotPair, e: AnomalyEntry): SlotPair
  {
    if e.methodName == ZScoreMethod then p.(zScore := SummaryOf(e)) else p.(iqr := SummaryOf(e))
  }

  /** `anomalies_dict` after the loop over the anomaly rows. */
  function SlotsOf(rows: seq<AnomalyEntry>): map<string, SlotPair>
  {
    if rows == [] then map[]
    else
      var m := SlotsOf(rows[..|rows| - 1]);
      var e := rows[|rows| - 1];
      m[e.column := FillSlot(if e.column in m then m[e.column] else EmptySlots, e)]
  }

  /** The loop over the anomaly rows. */
  method FormatAnomalies(rows: seq<AnomalyEntry>) returns (slots: map<string, SlotPair>)
    ensures slots == SlotsOf(rows)
  {
    slots := map[];
    for k := 0 to |rows|
      invariant slots == SlotsOf(rows[..k])
    {
      var anomaly := rows[k];
      assert rows[..k + 1][..k] == rows[..k];
      if anomaly.column !in slots {
        slots := slots[anomaly.column := EmptySlots];
      }
      if anomaly.methodName == ZScoreMethod {
        slots := slots[anomaly.column := slots[anomaly.column].(zScore := SummaryOf(anomaly))];
      } else {
        slots := slots[anomaly.column := slots[anomaly.column].(iqr := SummaryOf(anomaly))];
      }
    }
    assert rows[..|rows|] == rows;
  }

  function AnomalyColumn(e: AnomalyEntry): string { e.column }
  function IsZScoreRow(e: AnomalyEntry): bool { e.methodName == ZScoreMethod }
  function IsIqrRow(e: AnomalyEntry): bool { e.methodName != ZScoreMethod }

  /** A slot's value: the last row written to it, or the empty default. */
  function SlotValue(m: map<string, AnomalySummary>, c: string): AnomalySummary
  {
    if c in m then m[c] else EmptySummary
  }

  /**
   * The slots are two independent last-write-wins dicts, one over the
   * Z-score rows and one over all other rows; a column is present as soon
   * as it has any row, and an unwritten slot keeps count 0 and no indices.
   */
  lemma {:induction false} SlotsAreLastWrites(rows: seq<AnomalyEntry>, c: string)
    ensures c in SlotsOf(rows) <==> exists i :: 0 <= i < |rows| && rows[i].column == c
    ensures c in SlotsOf(rows) ==>
      SlotsOf(rows)[c] == SlotPair(SlotValue(LastWins(rows, AnomalyColumn, IsZScoreRow, SummaryOf), c),
                                   SlotValue(LastWins(rows, AnomalyColumn, IsIqrRow, SummaryOf), c))
    ensures c !in SlotsOf(rows) ==>
      c !in LastWins(rows, AnomalyColumn, IsZScoreRow, SummaryOf) && c !in LastWins(rows, AnomalyColumn, IsIqrRow, SummaryOf)
  {
    if rows != [] {
      var init := rows[..|rows| - 1];
      SlotsAreLastWrites(init, c);
      assert forall i :: 0 <= i < |init| ==> rows[i] == init[i];
    }
  }

  // ---------------------------------------------------------------- visualizations

  function VisColumn(v: VisualizationEntry): string { v.column }
  function IsHistogram(v: VisualizationEntry): bool { v.visualizationType == HistogramType }
  function IsBoxplot(v: VisualizationEntry): bool { v.visualizationType == BoxplotType }
  function HistogramChart(v: VisualizationEntry): Chart { Chart(v.data, HistogramType) }
  function BoxplotChart(v: VisualizationEntry): Chart { Chart(v.data, BoxplotType) }

  /** Row i is a heatmap row and no later row is one. */
  predicate IsLastHeatmap(vs: seq<VisualizationEntry>, i: int)
  {
    && 0 <= i < |vs| && vs[i].visualizationType == HeatmapType
    && forall j :: i < j < |vs| ==> vs[j].visualizationType != HeatmapType
  }

  /** The last heatmap row's chart, if any. */
  function LastHeatmap(vs: seq<VisualizationEntry>): (r: Option<Chart>)
    ensures r.None? <==> forall i :: 0 <= i < |vs| ==> vs[i].visualizationType != HeatmapType
    ensures r.Some? ==> exists i :: IsLastHeatmap(vs, i) && r.value == Chart(vs[i].data, HeatmapType)
  {
    if vs == [] then None
    else
      var n := |vs| - 1;
      if vs[n].visualizationType == HeatmapType then
        assert IsLastHeatmap(vs, n);
        Some(Chart(vs[n].data, HeatmapType))
      else
        var pre := vs[..n];
        var r := LastHeatmap(pre);
        assert forall i :: 0 <= i < n ==> pre[i] == vs[i];
        assert r.Some? ==> exists i :: IsLastHeatmap(vs, i) && r.value == Chart(vs[i].data, HeatmapType) by {
          if r.Some? {
            var i :| IsLastHeatmap(pre, i) && r.value == Chart(pre[i].data, HeatmapType);
            assert IsLastHeatmap(vs, i);
          }
        }
        r
  }

  /** `vis_dict`: histograms and boxplots keyed by column, the last heatmap, other rows ignored. */
  function VisualsOf(vs: seq<VisualizationEntry>): Visualizations
  {
    Visualizations(LastWins(vs, VisColumn, IsHistogram, HistogramChart),
                   LastHeatmap(vs),
                   LastWins(vs, VisColumn, IsBoxplot, BoxplotChart))
  }

  /** The loop over the visualization rows. */
  method FormatVisualizations(vs: seq<VisualizationEntry>) returns (vis: Visualizations)
    ensures vis == VisualsOf(vs)
  {
    vis := Visualizations(map[], None, map[]);
    for k := 0 to |vs|
      invariant vis == VisualsOf(vs[..k])
    {
      var v := vs[k];
      assert vs[..k + 1][..k] == vs[..k];
      if v.visualizationType == HistogramType {
        vis := vis.(histograms := vis.histograms[v.column := Chart(v.data, HistogramType)]);
      } else if v.visualizationType == HeatmapType {
        vis := vis.(heatmap := Some(Chart(v.data, HeatmapType)));
      } else if v.visualizationType == BoxplotType {
        vis := vis.(boxplots := vis.boxplots[v.column := Chart(v.data, BoxplotType)]);
      }
    }
    assert vs[..|vs|] == vs;
  }

  // ---------------------------------------------------------------- the whole record

  /** The reloaded profile of `file` from the committed tables `db`. */
  function Reloaded(file: UploadedFile, db: Tables): AnalysisData
    reads file
    requires file.completedAt.Some?
  {
    var reports := ReportsOf(db.reports, file.id);
    AnalysisData(
      StatsOf(reports), MissingOf(reports),
      StrongOf(CorrelationsOf(db.correlations, file.id)),
      SlotsOf(AnomaliesOf(db.anomalies, file.id)),
      VisualsOf(VisualizationsOf(db.visualizations, file.id)),
      ReloadMetadata(file.completedAt.value, file.originalFilename, file.rowCount, ColumnsOf(reports),
                     file.uploadTime, file.completedAt.value - file.uploadTime))
  }

  /** `format_analysis_data(file_entry, db)`. */
  method FormatAnalysisData(file: UploadedFile, db: Tables) returns (r: Result<AnalysisData, ReloadError>)
    ensures r.Err? <==> file.completedAt.None?
    ensures r.Err? ==> r.error == NotCompleted
    ensures r.Ok? ==> r.value == Reloaded(file, db)
    ensures r.Ok? ==> r.value.metadata.rows == file.rowCount && |r.value.metadata.columns| == |ReportsOf(db.reports, file.id)|
    ensures r.Ok? ==> SortedByStrength(r.value.strongCorrelations)
  {
    var reports := ReportsOf(db.reports, file.id);
    var correlations := CorrelationsOf(db.correlations, file.id);
    var anomalies := AnomaliesOf(db.anomalies, file.id);
    var visualizations := VisualizationsOf(db.visualizations, file.id);

    var basicStats, missing := FormatReports(reports);
    var strong := StrongOf(correlations);
    var slots := FormatAnomalies(anomalies);
    var vis := FormatVisualizations(visualizations);
    if file.completedAt.None? {
      return Err(NotCompleted);
    }
    var completed := file.completedAt.value;
    r := Ok(AnalysisData(basicStats, missing, strong, slots, vis,
                         ReloadMetadata(completed, file.originalFilename, file.rowCount, ColumnsOf(reports),
                                        file.uploadTime, completed - file.uploadTime)));
  }
}
