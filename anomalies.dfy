/**
 * Anomaly detection (`detect_anomalies`): per numeric column, the rows the
 * Z-score rule and the IQR rule flag, each reported as the full count and
 * the first 100 row positions.
 */
module Anomalies {
  import opened Common
  import opened Frames
  import opened Stats

  /** How many flagged row positions are kept per method. */
  const IndexLimit: nat := 100

  /** `z_score_threshold`. */
  const ZThreshold: real := 3.0

  datatype AnomalySummary = AnomalySummary(count: nat, indices: seq<nat>)

  datatype ColumnAnomalies = ColumnAnomalies(column: string, zScore: AnomalySummary, iqr: AnomalySummary)

  /** `{"count": len(rows), "indices": rows[:100]}`. */
  function Summarize(rows: seq<nat>): (s: AnomalySummary)
    ensures s.count == |rows|
    ensures s.indices <= rows
    ensures s.count >= |s.indices|
    ensures s.count == |s.indices| <==> s.count <= IndexLimit
    ensures s.count > IndexLimit ==> |s.indices| == IndexLimit
  {
    AnomalySummary(|rows|, if |rows| <= IndexLimit then rows else rows[..IndexLimit])
  }

  /** Row i holds a number that `flag` accepts. */
  predicate Flagged(cells: seq<Option<real>>, flag: real -> bool, i: int)
  {
    0 <= i < |cells| && cells[i].Some? && flag(cells[i].value)
  }

  /** The rows from k on whose cell is a number that `flag` accepts, in ascending order. */
  function FlaggedRows(cells: seq<Option<real>>, flag: real -> bool, k: nat): (r: seq<nat>)
    requires k <= |cells|
    ensures forall i :: i in r <==> k <= i && Flagged(cells, flag, i)
    ensures StrictlyIncreasing(r)
    decreases |cells| - k
  {
    if k == |cells| then []
    else
      var rest := FlaggedRows(cells, flag, k + 1);
      var head := if Flagged(cells, flag, k) then [k] else [];
      FlaggedMembers(cells, flag, k, head, rest);
      FlaggedIncreasing(k, head, rest);
      head + rest
  }

  lemma FlaggedMembers(cells: seq<Option<real>>, flag: real -> bool, k: nat, head: seq<nat>, rest: seq<nat>)
    requires head == if Flagged(cells, flag, k) then [k] else []
    requires forall i :: i in rest <==> k + 1 <= i && Flagged(cells, flag, i)
    ensures forall i :: i in head + rest <==> k <= i && Flagged(cells, flag, i)
  {
    forall i ensures i in head + rest <==> k <= i && Flagged(cells, flag, i) {
      assert i in head + rest <==> i in head || i in rest;
    }
  }

  lemma FlaggedIncreasing(k: nat, head: seq<nat>, rest: seq<nat>)
    requires head == [] || head == [k]
    requires forall i :: i in rest ==> k < i
    requires StrictlyIncreasing(rest)
    ensures StrictlyIncreasing(head + rest)
  {
    var r := head + rest;
    if head == [] {
      assert r == rest;
    } else {
      forall i, j | 0 <= i < j < |r| ensures r[i] < r[j] {
        assert r[j] == rest[j - 1];
        if i > 0 {
          assert r[i] == rest[i - 1];
        } else {
          assert rest[j - 1] in rest;
        }
      }
    }
  }

  // ---------------------------------------------------------------- Z-score

  /** The sum of squared deviations from m. */
  function SquaredDeviations(xs: seq<real>, m: real): real
  {
    if xs == [] then 0.0 else (xs[0] - m) * (xs[0] - m) + SquaredDeviations(xs[1..], m)
  }

  /** The population variance (scipy's `zscore` uses ddof = 0). */
  function Variance(xs: seq<real>): real
    requires |xs| > 0
  {
    SquaredDeviations(xs, Mean(xs)) / |xs| as real
  }

  /**
   * `|x - mean| / std > 3` restated without the square root. With zero
   * variance the z-score is NaN (0 / 0) and the comparison is false.
   */
  predicate IsZOutlier(x: real, mean: real, variance: real)
  {
    variance > 0.0 && (x - mean) * (x - mean) > ZThreshold * ZThreshold * variance
  }

  /**
   * The rows the Z-score rule flags. The mask is computed on the
   * null-dropped column and applied to the whole frame, so a column with a
   * null cannot be indexed by it and the call fails.
   */
  function ZScoreRows(cells: seq<Option<real>>): (r: Result<seq<nat>, AnalysisError>)
    ensures r.Err? <==> NullCount(cells) > 0
    ensures r.Err? ==> r.error == MaskLengthMismatch
    ensures r.Ok? && |cells| > 0 ==>
      var xs := NonNull(cells);
      forall i :: i in r.value <==> 0 <= i < |cells| && IsZOutlier(cells[i].value, Mean(xs), Variance(xs))
    ensures r.Ok? && |cells| == 0 ==> r.value == []
    ensures r.Ok? ==> StrictlyIncreasing(r.value)
  {
    if NullCount(cells) > 0 then Err(MaskLengthMismatch)
    else if |cells| == 0 then Ok([])
    else
      var xs := NonNull(cells);
      var mean, variance := Mean(xs), Variance(xs);
      Ok(FlaggedRows(cells, x => IsZOutlier(x, mean, variance), 0))
  }

  // ---------------------------------------------------------------- IQR

  /** The IQR fences Q1 - 1.5 IQR and Q3 + 1.5 IQR of the non-null values. */
  function LowerFence(xs: seq<real>): real
    requires |xs| > 0
  {
    Quantile(xs, 0.25) - 1.5 * (Quantile(xs, 0.75) - Quantile(xs, 0.25))
  }

  function UpperFence(xs: seq<real>): real
    requires |xs| > 0
  {
    Quantile(xs, 0.75) + 1.5 * (Quantile(xs, 0.75) - Quantile(xs, 0.25))
  }

  /**
   * The rows whose value lies outside the fences, in ascending order. A
   * null cell compares false, and so does everything when the quartiles
   * are NaN (no non-null value).
   */
  function IqrRows(cells: seq<Option<real>>): (r: seq<nat>)
    ensures StrictlyIncreasing(r)
    ensures NonNull(cells) == [] ==> r == []
    ensures NonNull(cells) != [] ==>
      var xs := NonNull(cells);
      forall i :: i in r <==>
        (0 <= i < |cells| && cells[i].Some? && (cells[i].value < LowerFence(xs) || cells[i].value > UpperFence(xs)))
  {
    var xs := NonNull(cells);
    if xs == [] then []
    else
      var lower, upper := LowerFence(xs), UpperFence(xs);
      FlaggedRows(cells, x => x < lower || x > upper, 0)
  }

  // ---------------------------------------------------------------- per column

  /** The `anomalies[col]` entry of a numeric column without nulls. */
  function ColumnAnomaliesOf(c: Column): ColumnAnomalies
    requires NullCount(c.cells) == 0
  {
    ColumnAnomalies(c.name, Summarize(ZScoreRows(c.cells).value), Summarize(IqrRows(c.cells)))
  }

  /** The body of the loop for one column: both methods, or the Z-score step's failure. */
  function DetectColumn(c: Column): (r: Result<ColumnAnomalies, AnalysisError>)
    ensures r.Err? <==> NullCount(c.cells) > 0
    ensures r.Err? ==> r.error == MaskLengthMismatch
    ensures r.Ok? ==> r.value == ColumnAnomaliesOf(c)
  {
    var z := ZScoreRows(c.cells);
    if z.Err? then Err(z.error)
    else Ok(ColumnAnomalies(c.name, Summarize(z.value), Summarize(IqrRows(c.cells))))
  }

  /** `detect_anomalies`: the loop over the numeric columns. */
  method DetectAnomalies(df: Frame) returns (r: Result<seq<ColumnAnomalies>, AnalysisError>)
    ensures r.Err? <==> exists c :: c in NumericColumns(df.columns) && NullCount(c.cells) > 0
    ensures r.Err? ==> r.error == MaskLengthMismatch
    ensures r.Ok? ==> |r.value| == |NumericColumns(df.columns)|
    ensures r.Ok? ==> forall k :: 0 <= k < |r.value| ==>
      NullCount(NumericColumns(df.columns)[k].cells) == 0 &&
      r.value[k] == ColumnAnomaliesOf(NumericColumns(df.columns)[k])
  {
    r := DetectEach(NumericColumns(df.columns));
  }

  /** The loop body run over `cols` in order; the first column holding a null makes it raise. */
  method DetectEach(cols: seq<Column>) returns (r: Result<seq<ColumnAnomalies>, AnalysisError>)
    ensures r.Err? <==> exists c :: c in cols && NullCount(c.cells) > 0
    ensures r.Err? ==> r.error == MaskLengthMismatch
    ensures r.Ok? ==> |r.value| == |cols|
    ensures r.Ok? ==> forall k :: 0 <= k < |cols| ==> NullCount(cols[k].cells) == 0 && r.value[k] == ColumnAnomaliesOf(cols[k])
  {
    var anomalies: seq<ColumnAnomalies> := [];
    for k := 0 to |cols|
      invariant DetectedPrefix(cols, anomalies, k)
    {
      var entry := DetectColumn(cols[k]);
      if entry.Err? {
        NullColumnIn(cols, k);
        return Err(entry.error);
      }
      DetectedStep(cols, anomalies, k, entry.value);
      anomalies := anomalies + [entry.value];
    }
    NoNullColumnIn(cols);
    return Ok(anomalies);
  }

  /** The first `k` columns are null-free and `anomalies` holds their entries in order. */
  predicate DetectedPrefix(cols: seq<Column>, anomalies: seq<ColumnAnomalies>, k: int) {
    && 0 <= k <= |cols|
    && |anomalies| == k
    && forall j :: 0 <= j < k ==> NullCount(cols[j].cells) == 0 && anomalies[j] == ColumnAnomaliesOf(cols[j])
  }

  lemma DetectedStep(cols: seq<Column>, anomalies: seq<ColumnAnomalies>, k: int, e: ColumnAnomalies)
    requires DetectedPrefix(cols, anomalies, k) && k < |cols|
    requires NullCount(cols[k].cells) == 0 && e == ColumnAnomaliesOf(cols[k])
    ensures DetectedPrefix(cols, anomalies + [e], k + 1)
  {
  }

  lemma NullColumnIn(cols: seq<Column>, k: int)
    requires 0 <= k < |cols| && NullCount(cols[k].cells) > 0
    ensures exists c :: c in cols && NullCount(c.cells) > 0
  {
    assert cols[k] in cols;
  }

  lemma NoNullColumnIn(cols: seq<Column>)
    requires forall j :: 0 <= j < |cols| ==> NullCount(cols[j].cells) == 0
    ensures !exists c :: c in cols && NullCount(c.cells) > 0
  {
    forall c | c in cols ensures NullCount(c.cells) == 0 {
      var j :| 0 <= j < |cols| && cols[j] == c;
    }
  }

  // ---------------------------------------------------------------- lemmas

  lemma {:induction false} SquaredDeviationsOfConstant(xs: seq<real>, c: real)
    requires forall x :: x in xs ==> x == c
    ensures SquaredDeviations(xs, c) == 0.0
  {
    if xs != [] {
      assert xs[0] in xs;
      assert forall x :: x in xs[1..] ==> x in xs;
      SquaredDeviationsOfConstant(xs[1..], c);
    }
  }

  lemma EmptyOrHasFirst(s: seq<nat>)
    ensures s == [] || s[0] in s
  {
  }

  lemma NoMemberMeansEmpty(s: seq<nat>)
    requires forall i :: i !in s
    ensures s == []
  {
    EmptyOrHasFirst(s);
  }

  /** A constant column has mean c and variance 0. */
  lemma ConstantMoments(xs: seq<real>, c: real)
    requires |xs| > 0 && forall x :: x in xs ==> x == c
    ensures Mean(xs) == c && Variance(xs) == 0.0
  {
    MeanBetween(xs, c, c);
    SquaredDeviationsOfConstant(xs, c);
  }

  /** A null-free column holding one value throughout has zero variance, so no Z-score outlier. */
  lemma ConstantColumnHasNoZScoreOutlier(cells: seq<Option<real>>, c: real)
    requires forall i :: 0 <= i < |cells| ==> cells[i] == Some(c)
    ensures ZScoreRows(cells) == Ok([])
  {
    var r := ZScoreRows(cells);
    if |cells| > 0 {
      var xs := NonNull(cells);
      assert forall x :: x in xs ==> x == c;
      ConstantMoments(xs, c);
      NoMemberMeansEmpty(r.value);
    }
  }

  /** The linear percentiles of values that all equal c are c. */
  lemma QuantileOfConstant(xs: seq<real>, c: real, p: real)
    requires |xs| > 0 && 0.0 <= p <= 1.0
    requires forall x :: x in xs ==> x == c
    ensures Quantile(xs, p) == c
  {
    var v := SortAsc(xs);
    SortedEnds(xs);
    assert Min(xs) == c && Max(xs) == c;
    QuantileInSegment(v, p);
    var lo := Position(|v|, p).Floor;
    assert v[0] <= v[lo] <= v[|v| - 1];
    if lo + 1 < |v| {
      assert v[lo + 1] <= v[|v| - 1];
    }
  }

  /** In a column whose non-null values are all equal, IQR is 0, both fences equal the value, and no row is flagged. */
  lemma ConstantColumnHasNoIqrOutlier(cells: seq<Option<real>>, c: real)
    requires forall i :: 0 <= i < |cells| && cells[i].Some? ==> cells[i].value == c
    ensures IqrRows(cells) == []
  {
    var xs := NonNull(cells);
    if xs != [] {
      NonNullOfConstant(cells, c);
      FencesOfConstant(xs, c);
      var r := IqrRows(cells);
      assert forall i :: i !in r;
      NoMemberMeansEmpty(r);
    }
  }

  lemma NonNullOfConstant(cells: seq<Option<real>>, c: real)
    requires forall i :: 0 <= i < |cells| && cells[i].Some? ==> cells[i].value == c
    ensures forall x :: x in NonNull(cells) ==> x == c
  {
    forall x | x in NonNull(cells) ensures x == c {
      var i :| 0 <= i < |cells| && cells[i] == Some(x);
    }
  }

  lemma FencesOfConstant(xs: seq<real>, c: real)
    requires |xs| > 0 && forall x :: x in xs ==> x == c
    ensures LowerFence(xs) == c && UpperFence(xs) == c
  {
    QuantileOfConstant(xs, c, 0.25);
    QuantileOfConstant(xs, c, 0.75);
  }

  /** Null rows are never flagged by either rule, and every flagged position is a row. */
  lemma FlaggedRowsAreNonNullRows(cells: seq<Option<real>>)
    ensures forall i :: i in IqrRows(cells) ==> i < |cells| && cells[i].Some?
    ensures ZScoreRows(cells).Ok? ==> forall i :: i in ZScoreRows(cells).value ==> i < |cells| && cells[i].Some?
  {
    var r := IqrRows(cells);
    if NonNull(cells) == [] {
      assert r == [];
    }
  }

  /** The column [10, 20, null, 1000] makes the Z-score rule fail rather than report row 3. */
  lemma NullInNumericColumnFails()
    ensures ZScoreRows([Some(10.0), Some(20.0), None, Some(1000.0)]) == Err(MaskLengthMismatch)
  {
    var cells := [Some(10.0), Some(20.0), None, Some(1000.0)];
    assert cells[2].None?;
  }
}
