/**
 * `DataAnalyzer`: validates the frame once, then runs the four analyses
 * and merges them with the frame's metadata into one profile.
 */
module Analysis {
  import opened Common
  import opened Frames
  import opened Stats
  import opened Missing
  import opened Correlations
  import opened Anomalies

  /** The analyzer only ever reads the frame it was built with. */
  datatype DataAnalyzer = DataAnalyzer(df: Frame)

  datatype Metadata = Metadata(rows: nat, columns: seq<string>, dtypes: map<string, string>)

  datatype Profile = Profile(
    basicStats: map<string, ColumnStats>,
    missingValues: MissingReport,
    correlations: CorrelationResult,
    anomalies: seq<ColumnAnomalies>,
    metadata: Metadata)

  /** `DataAnalyzer(df)`: an empty frame raises, so no analysis can run on it. */
  function NewDataAnalyzer(df: Frame): (r: Result<DataAnalyzer, AnalysisError>)
    ensures r.Err? <==> df.IsEmpty()
    ensures r.Err? ==> r.error == EmptyDataFrame
    ensures r.Ok? ==> r.value.df == df
  {
    if df.IsEmpty() then Err(EmptyDataFrame) else Ok(DataAnalyzer(df))
  }

  /** `calculate_basic_stats`: one entry per numeric column, filled in a loop. */
  method CalculateBasicStats(df: Frame) returns (stats: map<string, ColumnStats>)
    requires df.Valid()
    ensures stats.Keys == NameSet(NumericColumns(df.columns))
    ensures forall c :: c in NumericColumns(df.columns) ==> stats[c.name] == Describe(c.cells)
    ensures forall c :: c in NumericColumns(df.columns) && NullCount(c.cells) < |c.cells| ==> Ordered(stats[c.name])
  {
    var numeric := NumericColumns(df.columns);
    stats := map[];
    for k := 0 to |numeric|
      invariant stats.Keys == NameSet(numeric[..k])
      invariant forall j :: 0 <= j < k ==> stats[numeric[j].name] == Describe(numeric[j].cells)
    {
      assert numeric[..k + 1] == numeric[..k] + [numeric[k]];
      stats := stats[numeric[k].name := Describe(numeric[k].cells)];
    }
    assert numeric[..|numeric|] == numeric;
    forall c | c in numeric
      ensures stats[c.name] == Describe(c.cells)
    {
      var j :| 0 <= j < |numeric| && numeric[j] == c;
    }
    forall c | c in numeric && NullCount(c.cells) < |c.cells|
      ensures Ordered(stats[c.name])
    {
      DescribeOrdered(c.cells);
    }
  }

  /** `{col: str(dtype)}` over every column. */
  function Dtypes(cols: seq<Column>): (m: map<string, string>)
    requires DistinctNames(cols)
    ensures m.Keys == NameSet(cols)
    ensures forall c :: c in cols ==> m[c.name] == c.dtype
  {
    map k | 0 <= k < |cols| :: cols[k].name := cols[k].dtype
  }

  /** Some numeric column holds a null, which makes the Z-score step raise. */
  predicate HasNumericNull(df: Frame)
  {
    exists c :: c in NumericColumns(df.columns) && NullCount(c.cells) > 0
  }

  /**
   * The four analyses of `df`, given the correlation matrix `corr` of its numeric columns: the
   * statistics, the missing-value report, the correlation result and the anomaly entries.
   */
  predicate AnalysesOf(df: Frame, corr: seq<seq<Option<real>>>, basicStats: map<string, ColumnStats>,
                       missingValues: MissingReport, correlations: CorrelationResult, anomalies: seq<ColumnAnomalies>)
    requires df.Valid() && df.rows > 0
    requires var n := |NumericColumns(df.columns)|; n >= 2 ==> IsSquare(corr, n)
  {
    var numeric := NumericColumns(df.columns);
    && basicStats.Keys == NameSet(numeric)
    && (forall c :: c in numeric ==> basicStats[c.name] == Describe(c.cells))
    && missingValues == AnalyzeMissingValues(df)
    && (|numeric| < 2 <==> correlations.NotEnoughColumns?)
    && (correlations.NotEnoughColumns? ==> correlations.message == NotEnoughMessage)
    && (correlations.Correlations? ==>
          correlations.matrix == corr
          && correlations.strong == SortByStrength(UpperPairs(Names(numeric), corr, |numeric|)))
    && |anomalies| == |numeric|
    && (forall k :: 0 <= k < |numeric| ==>
          NullCount(numeric[k].cells) == 0 && anomalies[k] == ColumnAnomaliesOf(numeric[k]))
  }

  /** `p` is what the four analyses give for `df`, with the frame's metadata. */
  predicate IsProfile(df: Frame, corr: seq<seq<Option<real>>>, p: Profile)
    requires df.Valid() && df.rows > 0
    requires var n := |NumericColumns(df.columns)|; n >= 2 ==> IsSquare(corr, n)
  {
    && AnalysesOf(df, corr, p.basicStats, p.missingValues, p.correlations, p.anomalies)
    && p.metadata == Metadata(df.rows, Names(df.columns), Dtypes(df.columns))
  }

  /**
   * `analyze`. The correlation matrix of the numeric columns is an input;
   * the call raises (and no profile is produced) when a numeric column
   * holds a null, because the Z-score step fails there.
   */
  method Analyze(a: DataAnalyzer, corr: seq<seq<Option<real>>>) returns (r: Result<Profile, AnalysisError>)
    requires a.df.Valid() && !a.df.IsEmpty()
    requires var n := |NumericColumns(a.df.columns)|; n >= 2 ==> IsSquare(corr, n)
    ensures r.Err? <==> HasNumericNull(a.df)
    ensures r.Err? ==> r.error == MaskLengthMismatch
    ensures r.Ok? ==> IsProfile(a.df, corr, r.value)
  {
    var df := a.df;
    var basicStats := CalculateBasicStats(df);
    var missing := AnalyzeMissingValues(df);
    var numeric := NumericColumns(df.columns);
    var correlations := AnalyzeCorrelations(Names(numeric), corr);
    var anomalies := DetectAnomalies(df);
    if anomalies.Err? {
      return Err(anomalies.error);
    }
    r := Ok(Profile(basicStats, missing, correlations, anomalies.value,
                    Metadata(df.rows, Names(df.columns), Dtypes(df.columns))));
  }
}
